/**
 The paged transfer loop (src/takeout/google-api-runner.ts): list pages into `pending`, take a
 batch, download, upload, verify, record; the state goes to disk by write and rename.
*/
module BatchTransfer {
  import opened Wrappers

  // The source answers with any finite sequence of pages and then fails; every call can fail at any
  // time, which throws out of the loop. What the outside world answers is fixed in an `Env`, which the
  // code can only ask: so everything a run does is a function of its state and of these answers.

  datatype Item = Item(id: string, filename: string, mimeType: string, createdAt: string)

  datatype Page = Page(items: seq<Item>, nextPageToken: Option<string>)

  datatype Record = Record(destinationKey: string, size: nat)

  type Records = map<string, Record>

  /** The state file. */
  datatype State = State(
    pending: seq<Item>,
    transferred: Records,
    nextPageToken: Option<string>,
    sourceExhausted: bool
  )

  datatype BatchConfig = BatchConfig(
    batchMaxItems: int,
    batchMaxBytes: int,
    maxSourcePagesPerBatch: int,
    maxBatches: Option<int>,
    dryRun: bool
  )

  datatype BatchResult = BatchResult(
    downloadedCount: nat,
    uploadedCount: nat,
    verifiedCount: nat,
    deletedLocalCount: nat,
    totalBytes: nat,
    completed: bool
  )

  datatype RunResult = RunResult(
    batches: seq<BatchResult>,
    totalDownloaded: nat,
    totalUploaded: nat,
    totalVerified: nat,
    totalDeletedLocal: nat,
    totalBytes: nat,
    completed: bool
  )

  function Ids(items: seq<Item>): set<string> {
    set item | item in items :: item.id
  }

  lemma IdsConcat(a: seq<Item>, b: seq<Item>)
    ensures Ids(a + b) == Ids(a) + Ids(b)
  {
    forall id
      ensures id in Ids(a + b) <==> id in Ids(a) + Ids(b)
    {
      if id in Ids(a) {
        var item :| item in a && item.id == id;
        assert item in a + b;
      }
      if id in Ids(b) {
        var item :| item in b && item.id == id;
        assert item in a + b;
      }
    }
  }

  function PageIds(pages: seq<Page>): set<string> {
    if pages == [] then {} else PageIds(pages[..|pages| - 1]) + Ids(pages[|pages| - 1].items)
  }

  // ------------------------------------------------------------- the outside world

  /** The destination key of an item; the pages the source lists, the first of them for the token
      `start`, unless the loaded state says that it is exhausted; the bytes of the n-th download; the
      size that is listed for a key after the n-th upload; and whether every call to the source, the
      destination and the file system succeeds. */
  datatype Env = Env(
    keyOf: Item -> string,
    tape: seq<Page>,
    start: Option<string>,
    exhausted: bool,
    sizeAt: nat -> nat,
    found: (nat, string) -> Option<nat>,
    callsSucceed: bool
  )

  /** The ids on the first n pages. */
  function Listed(env: Env, n: nat): set<string>
    requires n <= |env.tape|
  {
    PageIds(env.tape[..n])
  }

  lemma {:induction false} ListedExactly(env: Env, n: nat, id: string)
    requires n <= |env.tape|
    ensures id in Listed(env, n)
            <==> exists i, k :: 0 <= i < n && 0 <= k < |env.tape[i].items| && env.tape[i].items[k].id == id
  {
    if n > 0 {
      ListedExactly(env, n - 1, id);
      assert env.tape[..n][..n - 1] == env.tape[..n - 1];
      var last := env.tape[n - 1].items;
      if item :| item in last && item.id == id {
        var k :| 0 <= k < |last| && last[k] == item;
      }
      if k :| 0 <= k < |last| && last[k].id == id {
        assert last[k] in last;
      }
    }
  }

  /** The token of the n-th answer: the source is asked for the page after that one only. */
  function Cursor(env: Env, n: nat): Option<string>
    requires n <= |env.tape|
  {
    if n == 0 then env.start else env.tape[n - 1].nextPageToken
  }

  /** After the n-th answer the source has no further page: it gave no token, or an empty one. */
  predicate ExhaustedAt(env: Env, n: nat)
    requires n <= |env.tape|
  {
    if n == 0 then env.exhausted else env.tape[n - 1].nextPageToken in {None, Some("")}
  }

  /** The source lists all its pages: each but the last names the next one. */
  ghost predicate ListsAll(env: Env) {
    !env.exhausted && forall n :: 0 < n < |env.tape| ==> !ExhaustedAt(env, n)
  }

  // ------------------------------------------------------------ what a batch does

  /** Items not yet transferred: those a page adds to pending. */
  function Fresh(items: seq<Item>, transferred: Records): seq<Item> {
    if items == [] then []
    else
      var last := items[|items| - 1];
      Fresh(items[..|items| - 1], transferred) + if last.id in transferred then [] else [last]
  }

  lemma {:induction false} FreshIds(items: seq<Item>, transferred: Records)
    ensures Ids(Fresh(items, transferred)) == Ids(items) - transferred.Keys
  {
    if items == [] {
      assert Ids(items) == {};
    } else {
      var front, last := items[..|items| - 1], items[|items| - 1];
      FreshIds(front, transferred);
      IdsConcat(front, [last]);
      assert items == front + [last];
      assert Ids([last]) == {last.id};
      assert Ids([]) == {};
      IdsConcat(Fresh(front, transferred), if last.id in transferred then [] else [last]);
    }
  }

  /** How many pending items the batch of at most `room` items consumes. */
  function Consumed(pending: seq<Item>, transferred: Records, room: int): (n: nat)
    ensures n <= |pending|
  {
    if room <= 0 || pending == [] then 0
    else 1 + Consumed(pending[1..], transferred, if pending[0].id in transferred then room else room - 1)
  }

  /** What takePendingForBatch takes, and what it leaves. */
  function Taken(pending: seq<Item>, transferred: Records, maxItems: int): seq<Item> {
    Fresh(pending[..Consumed(pending, transferred, maxItems)], transferred)
  }

  function Rest(pending: seq<Item>, transferred: Records, maxItems: int): seq<Item> {
    pending[Consumed(pending, transferred, maxItems)..]
  }

  /** The bytes of n downloads. */
  function Bytes(env: Env, from: nat, n: nat): nat {
    if n == 0 then 0 else Bytes(env, from, n - 1) + env.sizeAt(from + n - 1)
  }

  /** How many of the next n downloads a batch admits under the byte cap. */
  function Admitted(env: Env, from: nat, n: nat, cap: int): (d: nat)
    ensures d <= n
  {
    if n == 0 then 0
    else
      var d := Admitted(env, from, n - 1, cap);
      if d == n - 1 && (d == 0 || Bytes(env, from, d) + env.sizeAt(from + d) <= cap) then n else d
  }

  lemma {:induction false} BytesGrow(env: Env, from: nat, m: nat, n: nat)
    requires m <= n
    ensures Bytes(env, from, m) <= Bytes(env, from, n)
  {
    if m < n {
      BytesGrow(env, from, m, n - 1);
    }
  }

  /** A batch admits its first file whatever its size, then all that fit, and stops at the first that
      does not. */
  predicate StopsAt(env: Env, from: nat, n: nat, cap: int, d: nat) {
    d <= n && (d <= 1 || Bytes(env, from, d) <= cap) && (d < n ==> 0 < d && Bytes(env, from, d + 1) > cap)
  }

  lemma {:induction false} AdmittedStops(env: Env, from: nat, n: nat, cap: int)
    ensures StopsAt(env, from, n, cap, Admitted(env, from, n, cap))
  {
    if n > 0 {
      AdmittedStops(env, from, n - 1, cap);
    }
  }

  lemma StopsOnce(env: Env, from: nat, n: nat, cap: int, d: nat, e: nat)
    requires StopsAt(env, from, n, cap, d) && StopsAt(env, from, n, cap, e)
    ensures d >= e
  {
    if d < e {
      BytesGrow(env, from, d + 1, e);
    }
  }

  lemma AdmittedExactly(env: Env, from: nat, n: nat, cap: int, d: nat)
    ensures StopsAt(env, from, n, cap, d) <==> d == Admitted(env, from, n, cap)
  {
    AdmittedStops(env, from, n, cap);
    if StopsAt(env, from, n, cap, d) {
      StopsOnce(env, from, n, cap, d, Admitted(env, from, n, cap));
      StopsOnce(env, from, n, cap, Admitted(env, from, n, cap), d);
    }
  }

  /** A batch is within the byte cap, or is a single file. */
  lemma BatchWithinCap(env: Env, from: nat, n: nat, cap: int)
    ensures var d := Admitted(env, from, n, cap);
            (d <= 1 || Bytes(env, from, d) <= cap) && (d < n ==> Bytes(env, from, d + 1) > cap)
    ensures 0 < n ==> 0 < Admitted(env, from, n, cap)
  {
    AdmittedExactly(env, from, n, cap, Admitted(env, from, n, cap));
  }

  /** The records after the uploads of these items, whose downloads start with the one numbered `from`. */
  function Recorded(env: Env, transferred: Records, items: seq<Item>, from: nat): Records {
    if items == [] then transferred
    else
      var n := |items| - 1;
      Recorded(env, transferred, items[..n], from)[items[n].id := Record(env.keyOf(items[n]), env.sizeAt(from + n))]
  }

  lemma {:induction false} RecordedKeys(env: Env, transferred: Records, items: seq<Item>, from: nat)
    ensures Recorded(env, transferred, items, from).Keys == transferred.Keys + Ids(items)
  {
    if items == [] {
      assert Ids(items) == {};
    } else {
      var n := |items| - 1;
      RecordedKeys(env, transferred, items[..n], from);
      assert items == items[..n] + [items[n]];
      IdsConcat(items[..n], [items[n]]);
      assert Ids([items[n]]) == {items[n].id};
    }
  }

  /** What the destination receives for them. */
  function Uploads(env: Env, items: seq<Item>, from: nat): (records: seq<Record>)
    ensures |records| == |items|
  {
    if items == [] then []
    else
      var n := |items| - 1;
      Uploads(env, items[..n], from) + [Record(env.keyOf(items[n]), env.sizeAt(from + n))]
  }

  function AfterBatch(env: Env, transferred: Records, done: seq<Item>, from: nat, dryRun: bool): Records {
    if dryRun then transferred else Recorded(env, transferred, done, from)
  }

  /** What the destination receives in a batch. */
  function Received(env: Env, items: seq<Item>, from: nat, dryRun: bool): seq<Record> {
    if dryRun then [] else Uploads(env, items, from)
  }

  /** The ids a batch of `done` items leaves in no list: in a dry run those of the items themselves, and
      after a cut by the byte cap those after the one item put back. */
  function Forgotten(selected: seq<Item>, done: nat, dryRun: bool): set<string>
    requires done <= |selected|
  {
    (if dryRun then Ids(selected[..done]) else {}) + if done < |selected| then Ids(selected[done + 1..]) else {}
  }

  // ------------------------------------------------------------ what a run does

  /** All that a run works on: its state, how many pages and downloads it was given, and what the
      destination received. */
  datatype Snapshot = Snapshot(state: State, read: nat, downloads: nat, received: seq<Record>)

  function NextPage(env: Env, s: Snapshot): Snapshot
    requires s.read < |env.tape|
  {
    var page := env.tape[s.read];
    s.(state := State(s.state.pending + Fresh(page.items, s.state.transferred), s.state.transferred,
                      page.nextPageToken, page.nextPageToken.None? || page.nextPageToken.value == ""),
       read := s.read + 1)
  }

  /** fillPendingItems. */
  function Filled(env: Env, s: Snapshot, maxPages: int): (t: Snapshot)
    ensures t.state.transferred == s.state.transferred && t.downloads == s.downloads && t.received == s.received
    ensures s.read <= t.read && (s.read <= |env.tape| ==> t.read <= |env.tape|)
    ensures s.state.pending != [] ==> t == s
    decreases |env.tape| - s.read
  {
    if s.state.pending == [] && !s.state.sourceExhausted && 0 < maxPages && s.read < |env.tape| then
      Filled(env, NextPage(env, s), maxPages - 1)
    else s
  }

  /** The items of the next batch. */
  function Selected(env: Env, s: Snapshot, config: BatchConfig): seq<Item> {
    var filled := Filled(env, s, config.maxSourcePagesPerBatch).state;
    Taken(filled.pending, filled.transferred, config.batchMaxItems)
  }

  /** How many of them it processes. */
  function DoneIn(env: Env, s: Snapshot, config: BatchConfig): (d: nat)
    ensures d <= |Selected(env, s, config)|
  {
    Admitted(env, s.downloads, |Selected(env, s, config)|, config.batchMaxBytes)
  }

  /** After takePendingForBatch: the items taken are in no list. */
  function Took(filled: Snapshot, config: BatchConfig): Snapshot {
    filled.(state := filled.state.(pending := Rest(filled.state.pending, filled.state.transferred,
                                                   config.batchMaxItems)))
  }

  /** After the items `done` of the batch: those still to come are in no list. */
  function Midway(env: Env, took: Snapshot, done: seq<Item>, dryRun: bool): Snapshot {
    Snapshot(took.state.(transferred := AfterBatch(env, took.state.transferred, done, took.downloads, dryRun)),
             took.read, took.downloads + |done|, took.received + Received(env, done, took.downloads, dryRun))
  }

  /** The item at which the cap ended the batch was downloaded too, and is pending again. */
  function PutBack(s: Snapshot, item: Item): Snapshot {
    s.(state := s.state.(pending := [item] + s.state.pending), downloads := s.downloads + 1)
  }

  /** The state after a batch, from the state in which it was taken. */
  function Worked(env: Env, took: Snapshot, selected: seq<Item>, done: nat, dryRun: bool): Snapshot
    requires done <= |selected|
  {
    var midway := Midway(env, took, selected[..done], dryRun);
    if done < |selected| then PutBack(midway, selected[done]) else midway
  }

  function Processed(env: Env, s: Snapshot, config: BatchConfig): Snapshot {
    Worked(env, Took(Filled(env, s, config.maxSourcePagesPerBatch), config), Selected(env, s, config),
           DoneIn(env, s, config), config.dryRun)
  }

  /** runGoogleApiSingleBatch: the state after a batch, and its result. */
  function After(env: Env, s: Snapshot, config: BatchConfig): Snapshot {
    var t := Processed(env, s, config);
    if Selected(env, s, config) == [] then t else Filled(env, t, config.maxSourcePagesPerBatch)
  }

  function Tally(n: nat, bytes: nat, dryRun: bool, completed: bool): BatchResult {
    BatchResult(n, if dryRun then 0 else n, if dryRun then 0 else n, n, bytes, completed)
  }

  function ResultOf(env: Env, s: Snapshot, config: BatchConfig): BatchResult {
    var done, t := DoneIn(env, s, config), After(env, s, config).state;
    Tally(done, Bytes(env, s.downloads, done), config.dryRun, t.sourceExhausted && t.pending == [])
  }

  function ForgottenIn(env: Env, s: Snapshot, config: BatchConfig): set<string> {
    Forgotten(Selected(env, s, config), DoneIn(env, s, config), config.dryRun)
  }

  /** Every item of the batch was found at the destination with the size downloaded, right after its upload. */
  ghost predicate Confirmed(env: Env, items: seq<Item>, from: nat, received: nat) {
    forall i :: 0 <= i < |items| ==> env.found(received + i + 1, env.keyOf(items[i])) == Some(env.sizeAt(from + i))
  }

  ghost predicate ConfirmedIn(env: Env, s: Snapshot, config: BatchConfig) {
    config.dryRun || Confirmed(env, Selected(env, s, config)[..DoneIn(env, s, config)], s.downloads, |s.received|)
  }

  /** The state after n steps, what they gave, and what they lose. */
  function Iterate<S>(step: S -> S, s: S, n: nat): S {
    if n == 0 then s else step(Iterate(step, s, n - 1))
  }

  function Outputs<S, R>(step: S -> S, result: S -> R, s: S, n: nat): (results: seq<R>)
    ensures |results| == n
  {
    if n == 0 then [] else Outputs(step, result, s, n - 1) + [result(Iterate(step, s, n - 1))]
  }

  predicate AllGood<S>(step: S -> S, good: S -> bool, s: S, n: nat) {
    n > 0 ==> AllGood(step, good, s, n - 1) && good(Iterate(step, s, n - 1))
  }

  /** The run from s has come to `now` by steps that were sound and gave these results. */
  ghost predicate Ran<S, R>(step: S -> S, result: S -> R, sound: S -> bool, s: S, results: seq<R>, now: S) {
    && now == Iterate(step, s, |results|)
    && results == Outputs(step, result, s, |results|)
    && AllGood(step, sound, s, |results|)
  }

  function LostBy<S>(step: S -> S, lose: S -> set<string>, s: S, n: nat): set<string> {
    if n == 0 then {} else LostBy(step, lose, s, n - 1) + lose(Iterate(step, s, n - 1))
  }

  lemma RanBefore<S, R>(step: S -> S, result: S -> R, sound: S -> bool, s: S, results: seq<R>, now: S)
    requires Ran(step, result, sound, s, results, now) && results != []
    ensures var n := |results| - 1;
            && Ran(step, result, sound, s, results[..n], Iterate(step, s, n)) && now == step(Iterate(step, s, n))
            && results[n] == result(Iterate(step, s, n)) && sound(Iterate(step, s, n))
  {
  }

  lemma OneMoreRan<S, R>(step: S -> S, result: S -> R, sound: S -> bool, s: S, results: seq<R>, now: S)
    ensures Ran(step, result, sound, s, results, now) && sound(now) ==>
              Ran(step, result, sound, s, results + [result(now)], step(now))
  {
  }

  /** What a batch does to a state, and gives, and forgets. */
  function Next(env: Env, config: BatchConfig): Snapshot -> Snapshot {
    (s: Snapshot) => After(env, s, config)
  }

  function Result(env: Env, config: BatchConfig): Snapshot -> BatchResult {
    (s: Snapshot) => ResultOf(env, s, config)
  }

  function Forgets(env: Env, config: BatchConfig): Snapshot -> set<string> {
    (s: Snapshot) => ForgottenIn(env, s, config)
  }

  ghost function Sound(env: Env, config: BatchConfig): Snapshot -> bool {
    (s: Snapshot) => ConfirmedIn(env, s, config)
  }

  /** How a batch ended: it threw listing pages, at its n-th item, or listing pages for the next batch. */
  datatype Outcome = Finished | ThrewFilling | ThrewAt(done: nat) | ThrewRefilling

  /** What the state file no longer accounts for after a batch that ended so. */
  function LostOnDisk(env: Env, s: Snapshot, config: BatchConfig, outcome: Outcome): set<string> {
    match outcome
    case ThrewFilling => {}
    case ThrewAt(done) =>
      if config.dryRun || done == 0 || |Selected(env, s, config)| < done then {}
      else Ids(Selected(env, s, config)[done..])
    case _ => ForgottenIn(env, s, config)
  }

  // ---------------------------------------------------------------- conservation

  /** Every listed id is transferred, pending, or in `extra`. */
  ghost predicate Accounted(listed: set<string>, transferred: Records, pending: seq<Item>, extra: set<string>) {
    listed <= transferred.Keys + Ids(pending) + extra
  }

  lemma FreshCons(pending: seq<Item>, n: nat, transferred: Records)
    requires 0 < n <= |pending|
    ensures Fresh(pending[..n], transferred)
            == (if pending[0].id in transferred then [] else [pending[0]]) + Fresh(pending[1..][..n - 1], transferred)
  {
    assert pending[..n] == [pending[0]] + pending[1..][..n - 1];
    FreshConcat([pending[0]], pending[1..][..n - 1], transferred);
    FreshOne(pending[0], transferred);
  }

  lemma {:induction false} TakesUpTo(pending: seq<Item>, transferred: Records, room: int)
    ensures |Taken(pending, transferred, room)| <= (if room <= 0 then 0 else room)
    ensures Rest(pending, transferred, room) != [] ==>
              |Taken(pending, transferred, room)| == if room <= 0 then 0 else room
  {
    if room > 0 && pending != [] {
      TakesUpTo(pending[1..], transferred, if pending[0].id in transferred then room else room - 1);
      FreshCons(pending, Consumed(pending, transferred, room), transferred);
    }
  }

  lemma {:induction false} FreshConcat(a: seq<Item>, b: seq<Item>, transferred: Records)
    ensures Fresh(a + b, transferred) == Fresh(a, transferred) + Fresh(b, transferred)
  {
    if b == [] {
      assert a + b == a;
    } else {
      var front, last := b[..|b| - 1], b[|b| - 1];
      FreshConcat(a, front, transferred);
      assert (a + b)[..|a + b| - 1] == a + front;
    }
  }

  lemma FreshOne(item: Item, transferred: Records)
    ensures Fresh([item], transferred) == if item.id in transferred then [] else [item]
  {
    assert [item][..0] == [];
  }

  lemma TakeAccounted(listed: set<string>, transferred: Records, filled: seq<Item>, maxItems: int, extra: set<string>)
    requires Accounted(listed, transferred, filled, extra)
    ensures Accounted(listed, transferred, Rest(filled, transferred, maxItems),
                      extra + Ids(Taken(filled, transferred, maxItems)))
  {
    var n := Consumed(filled, transferred, maxItems);
    FreshIds(filled[..n], transferred);
    assert filled == filled[..n] + filled[n..];
    IdsConcat(filled[..n], filled[n..]);
  }
  /** The state saved after some items of a batch. */
  function MidState(env: Env, state: State, done: seq<Item>, from: nat): State {
    state.(transferred := Recorded(env, state.transferred, done, from))
  }

  /** The books of a batch after its first i items. */
  ghost predicate Tallied(env: Env, records: Records, sent: seq<Record>, transferred: Records, received: seq<Record>,
                          batch: seq<Item>, i: nat, from: nat, r: BatchResult, config: BatchConfig)
    requires i <= |batch|
  {
    && transferred == AfterBatch(env, records, batch[..i], from, config.dryRun)
    && received == sent + Received(env, batch[..i], from, config.dryRun)
    && (!config.dryRun ==> Confirmed(env, batch[..i], from, |sent|))
    && r == Tally(i, Bytes(env, from, i), config.dryRun, false)
    && (i <= 1 || Bytes(env, from, i) <= config.batchMaxBytes)
  }

  lemma TalliedOne(env: Env, records: Records, sent: seq<Record>, before: Records, got: seq<Record>,
                   transferred: Records, received: seq<Record>, batch: seq<Item>, i: nat, from: nat, r: BatchResult,
                   config: BatchConfig)
    requires i < |batch| && Tallied(env, records, sent, before, got, batch, i, from, r, config)
    requires i == 0 || r.totalBytes + env.sizeAt(from + i) <= config.batchMaxBytes
    requires var record := Record(env.keyOf(batch[i]), env.sizeAt(from + i));
             if config.dryRun then transferred == before && received == got
             else && transferred == before[batch[i].id := record] && received == got + [record]
                  && env.found(|got| + 1, record.destinationKey) == Some(record.size)
    ensures Tallied(env, records, sent, transferred, received, batch, i + 1, from,
                    Tally(i + 1, r.totalBytes + env.sizeAt(from + i), config.dryRun, false), config)
  {
    assert batch[..i + 1][..i] == batch[..i];
  }

  lemma PageAccounted(env: Env, n: nat, transferred: Records, extra: set<string>)
    requires n < |env.tape| && Accounted(Listed(env, n), transferred, [], extra)
    ensures Accounted(Listed(env, n + 1), transferred, [] + Fresh(env.tape[n].items, transferred), extra)
  {
    assert env.tape[..n + 1][..n] == env.tape[..n];
    FreshIds(env.tape[n].items, transferred);
    assert [] + Fresh(env.tape[n].items, transferred) == Fresh(env.tape[n].items, transferred);
    assert Ids([]) == {};
  }

  lemma FreshSnoc(items: seq<Item>, k: nat, transferred: Records)
    requires k < |items|
    ensures Fresh(items[..k + 1], transferred)
            == Fresh(items[..k], transferred) + if items[k].id in transferred then [] else [items[k]]
  {
    assert items[..k + 1][..k] == items[..k];
  }

  /** The item put back is pending again; those after it are in no list. */
  lemma BackAccounted(listed: set<string>, records: Records, rest: seq<Item>, extra: set<string>, selected: seq<Item>,
                      done: nat)
    requires done <= |selected| && Accounted(listed, records, rest, extra + Ids(selected[done..]))
    ensures Accounted(listed, records, (if done < |selected| then [selected[done]] else []) + rest,
                      extra + Forgotten(selected, done, false))
  {
    if done < |selected| {
      assert selected[done..] == [selected[done]] + selected[done + 1..];
      IdsConcat([selected[done]], selected[done + 1..]);
      IdsConcat([selected[done]], rest);
    } else {
      assert selected[done..] == [] && [] + rest == rest && Ids([]) == {};
    }
  }

  lemma MidAccounted(env: Env, listed: set<string>, records: Records, rest: seq<Item>, selected: seq<Item>, done: nat,
                     from: nat, lost: set<string>)
    requires done <= |selected| && Accounted(listed, records, rest, lost + Ids(selected))
    ensures Accounted(listed, Recorded(env, records, selected[..done], from), rest, lost + Ids(selected[done..]))
    ensures Accounted(listed, records, rest, lost + Ids(selected[..done]) + Ids(selected[done..]))
  {
    RecordedKeys(env, records, selected[..done], from);
    assert selected == selected[..done] + selected[done..];
    IdsConcat(selected[..done], selected[done..]);
  }

  /** After a batch every listed id is accounted for but those it forgets. */
  lemma BatchAccounted(env: Env, listed: set<string>, records: Records, rest: seq<Item>, selected: seq<Item>, done: nat,
                       from: nat, dryRun: bool, lost: set<string>)
    requires done <= |selected| && Accounted(listed, records, rest, lost + Ids(selected))
    ensures Accounted(listed, AfterBatch(env, records, selected[..done], from, dryRun),
                      (if done < |selected| then [selected[done]] else []) + rest,
                      lost + Forgotten(selected, done, dryRun))
  {
    MidAccounted(env, listed, records, rest, selected, done, from, lost);
    var extra := lost + if dryRun then Ids(selected[..done]) else {};
    BackAccounted(listed, AfterBatch(env, records, selected[..done], from, dryRun), rest, extra, selected, done);
    assert extra + Forgotten(selected, done, false) == lost + Forgotten(selected, done, dryRun);
  }

  lemma NothingSelected(env: Env, s: Snapshot, config: BatchConfig, lost: set<string>)
    requires Selected(env, s, config) == []
    ensures After(env, s, config) == Took(Filled(env, s, config.maxSourcePagesPerBatch), config)
    ensures DoneIn(env, s, config) == 0 && lost + ForgottenIn(env, s, config) == lost + Ids([]) == lost
  {
    var took := Took(Filled(env, s, config.maxSourcePagesPerBatch), config);
    assert took.received + [] == took.received;
    assert Ids([]) == {};
  }

  lemma Union(a: set<string>, b: set<string>, c: set<string>)
    ensures a + b + c == a + (b + c)
  {
  }

  /** A page was read, or the pending list is shorter. */
  predicate Shorter(env: Env, t: Snapshot, s: Snapshot) {
    s.read <= t.read <= |env.tape| && (t.read == s.read ==> |t.state.pending| < |s.state.pending|)
  }

  lemma {:induction false} FilledSame(env: Env, s: Snapshot, maxPages: int)
    requires Filled(env, s, maxPages).read == s.read
    ensures Filled(env, s, maxPages) == s
  {
  }

  /** Pages are read until one has something new, the source is exhausted, or enough were read. */
  lemma {:induction false} FillsUntil(env: Env, s: Snapshot, maxPages: int)
    ensures var t := Filled(env, s, maxPages);
            t.state.pending != [] || t.state.sourceExhausted || t.read - s.read >= maxPages || t.read >= |env.tape|
    ensures Filled(env, s, maxPages).read - s.read <= if maxPages <= 0 then 0 else maxPages
    decreases |env.tape| - s.read
  {
    if s.state.pending == [] && !s.state.sourceExhausted && 0 < maxPages && s.read < |env.tape| {
      FillsUntil(env, NextPage(env, s), maxPages - 1);
    }
  }

  predicate NothingNew(page: Page, transferred: Records) {
    forall i :: 0 <= i < |page.items| ==> page.items[i].id in transferred
  }

  lemma {:induction false} FreshIsNothing(items: seq<Item>, transferred: Records)
    ensures Fresh(items, transferred) == [] <==> forall i :: 0 <= i < |items| ==> items[i].id in transferred
  {
    if items != [] {
      FreshIsNothing(items[..|items| - 1], transferred);
    }
  }

  /** What is pending after pages were read is what is new on the last of them; the others had nothing new. */
  lemma {:induction false} FillsWithLast(env: Env, s: Snapshot, maxPages: int)
    requires s.read <= |env.tape|
    ensures var t := Filled(env, s, maxPages);
            s.read < t.read ==>
              && t.state.pending == Fresh(env.tape[t.read - 1].items, s.state.transferred)
              && forall n :: s.read <= n < t.read - 1 ==> NothingNew(env.tape[n], s.state.transferred)
    decreases |env.tape| - s.read
  {
    var t := Filled(env, s, maxPages);
    if s.read < t.read {
      var next, page := NextPage(env, s), env.tape[s.read];
      FillsWithLast(env, next, maxPages - 1);
      FreshIsNothing(page.items, s.state.transferred);
      assert [] + Fresh(page.items, s.state.transferred) == Fresh(page.items, s.state.transferred);
    }
  }

  /** The item at which the cap ended a batch is the first of the next. */
  lemma CutItemIsNext(env: Env, s: Snapshot, config: BatchConfig)
    ensures var selected, done, after := Selected(env, s, config), DoneIn(env, s, config), After(env, s, config);
            done < |selected| ==>
              && after.state.pending != [] && after.state.pending[0] == selected[done]
              && (selected[done].id !in after.state.transferred && 0 < config.batchMaxItems ==>
                    Selected(env, after, config) != [] && Selected(env, after, config)[0] == selected[done])
  {
    var after := After(env, s, config);
    if && DoneIn(env, s, config) < |Selected(env, s, config)| && 0 < config.batchMaxItems
       && after.state.pending[0].id !in after.state.transferred
    {
      TakesFirst(after.state.pending, after.state.transferred, config.batchMaxItems);
    }
  }

  lemma TakesFirst(pending: seq<Item>, transferred: Records, maxItems: int)
    requires pending != [] && pending[0].id !in transferred && 0 < maxItems
    ensures Taken(pending, transferred, maxItems) != [] && Taken(pending, transferred, maxItems)[0] == pending[0]
  {
    FreshCons(pending, Consumed(pending, transferred, maxItems), transferred);
  }

  /** After a batch the queue is filled again at once: if nothing is pending then and the source has more,
      as many pages as are allowed were read since. So the batch that leaves nothing says so. */
  lemma RefillsAtOnce(env: Env, s: Snapshot, config: BatchConfig)
    requires s.read <= |env.tape|
    ensures var t := After(env, s, config);
            && Selected(env, s, config) != [] && t.state.pending == [] && !t.state.sourceExhausted
            && t.read < |env.tape| ==>
              t.read - s.read >= config.maxSourcePagesPerBatch
    ensures var r := ResultOf(env, s, config);
            r.completed <==> After(env, s, config).state.pending == [] && After(env, s, config).state.sourceExhausted
  {
    FillsUntil(env, Processed(env, s, config), config.maxSourcePagesPerBatch);
  }

  /** A batch that downloads something reads a page or shortens the pending list: the loop ends. */
  lemma Progress(env: Env, s: Snapshot, config: BatchConfig)
    requires s.read <= |env.tape|
    ensures 0 < DoneIn(env, s, config) ==> Shorter(env, After(env, s, config), s)
  {
    var filled := Filled(env, s, config.maxSourcePagesPerBatch);
    TakesEnough(filled.state.pending, filled.state.transferred, config.batchMaxItems);
    if After(env, s, config).read == s.read {
      FilledSame(env, s, config.maxSourcePagesPerBatch);
      if Selected(env, s, config) != [] {
        FilledSame(env, Processed(env, s, config), config.maxSourcePagesPerBatch);
      }
    }
  }

  lemma TakesEnough(pending: seq<Item>, transferred: Records, maxItems: int)
    ensures |Taken(pending, transferred, maxItems)| + |Rest(pending, transferred, maxItems)| <= |pending|
  {
    FreshShorter(pending[..Consumed(pending, transferred, maxItems)], transferred);
  }

  lemma {:induction false} FreshShorter(items: seq<Item>, transferred: Records)
    ensures |Fresh(items, transferred)| <= |items|
  {
    if items != [] {
      FreshShorter(items[..|items| - 1], transferred);
    }
  }
  /** The loop stops after its n-th batch: nothing is left, nothing was downloaded, or the limit is hit. */
  predicate StopsAfter(b: BatchResult, n: nat, config: BatchConfig) {
    b.completed || b.downloadedCount == 0 || (config.maxBatches.Some? && n >= config.maxBatches.value)
  }

  ghost predicate GoesOn(batches: seq<BatchResult>, config: BatchConfig) {
    forall k :: 0 <= k < |batches| ==> !StopsAfter(batches[k], k + 1, config)
  }

  /** It stops after the last batch and not before. */
  ghost predicate StopsHere(batches: seq<BatchResult>, config: BatchConfig) {
    batches != [] && StopsAfter(batches[|batches| - 1], |batches|, config) && GoesOn(batches[..|batches| - 1], config)
  }

  /** What the loop's end means: at most maxBatches batches, but always one, and fewer only if all was
      done or the last batch downloaded nothing. */
  lemma StopsMeans(batches: seq<BatchResult>, config: BatchConfig)
    requires StopsHere(batches, config)
    ensures config.maxBatches.Some? ==> |batches| <= 1 || |batches| <= config.maxBatches.value
    ensures var last := batches[|batches| - 1];
            !last.completed && last.downloadedCount > 0 ==>
              config.maxBatches.Some? && |batches| >= config.maxBatches.value
    ensures forall i :: 0 <= i < |batches| - 1 ==> !batches[i].completed && batches[i].downloadedCount > 0
  {
    var n := |batches| - 1;
    if n > 0 {
      assert batches[..n][n - 1] == batches[n - 1];
    }
    forall i | 0 <= i < n
      ensures !batches[i].completed && batches[i].downloadedCount > 0
    {
      assert batches[..n][i] == batches[i];
    }
  }

  lemma OneMoreGoesOn(batches: seq<BatchResult>, b: BatchResult, config: BatchConfig)
    requires GoesOn(batches, config)
    ensures if StopsAfter(b, |batches| + 1, config) then StopsHere(batches + [b], config)
            else GoesOn(batches + [b], config)
  {
    assert (batches + [b])[..|batches|] == batches;
  }
  datatype Step = Threw | Cut | Done

  class Transfer {
    const env: Env
    var pending: seq<Item>
    var transferred: Records
    var nextPageToken: Option<string>
    var sourceExhausted: bool
    var disk: State
    /** How many pages the source has answered, and downloads; and what the destination has received. */
    var read: nat
    var downloads: nat
    var received: seq<Record>
    /** How many pages were read when the state on disk was saved. */
    ghost var diskRead: nat

    function Current(): State
      reads this
    {
      State(pending, transferred, nextPageToken, sourceExhausted)
    }

    function Now(): Snapshot
      reads this
    {
      Snapshot(Current(), read, downloads, received)
    }

    /** The state in memory asks for the page after the last one read, if there is one, and so would the
        one on disk. */
    ghost predicate InStep()
      reads this
    {
      && diskRead <= read <= |env.tape|
      && nextPageToken == Cursor(env, read) && sourceExhausted == ExhaustedAt(env, read)
      && disk.nextPageToken == Cursor(env, diskRead) && disk.sourceExhausted == ExhaustedAt(env, diskRead)
    }

    /** What a restart would load accounts for every id listed so far but those in `lost`. */
    ghost predicate SafeOnDisk(lost: set<string>)
      reads this
    {
      InStep() && Accounted(Listed(env, diskRead), disk.transferred, disk.pending, lost)
    }

    /** So does the state in memory, and the disk knows of every page read. */
    ghost predicate Valid(lost: set<string>)
      reads this
    {
      SafeOnDisk(lost) && diskRead == read && Accounted(Listed(env, read), transferred, pending, lost)
    }

    /** loadGoogleApiTransferState. */
    constructor (env: Env, loaded: State)
      requires env.start == loaded.nextPageToken && env.exhausted == loaded.sourceExhausted
      ensures Valid({}) && disk == loaded && this.env == env && Now() == Snapshot(loaded, 0, 0, [])
    {
      this.env, disk := env, loaded;
      pending, transferred, nextPageToken, sourceExhausted :=
        loaded.pending, loaded.transferred, loaded.nextPageToken, loaded.sourceExhausted;
      read, downloads, received, diskRead := 0, 0, [], 0;
    }

    method CallFails() returns (fails: bool)
      ensures env.callsSucceed ==> !fails
    {
      fails := *;
      fails := fails && !env.callsSucceed;
    }

    method Persist() returns (ok: bool)
      modifies this`disk, this`diskRead
      ensures env.callsSucceed ==> ok
      ensures ok ==> disk == Current() && diskRead == read
      ensures !ok ==> disk == old(disk) && diskRead == old(diskRead)
    {
      var fails := CallFails();
      ok := !fails;
      if ok {
        disk, diskRead := Current(), read;
      }
    }

    method ListMediaItems(pageToken: Option<string>) returns (page: Option<Page>)
      requires read <= |env.tape| && pageToken == Cursor(env, read)
      modifies this`read
      ensures page.None? ==> read == old(read) && (env.callsSucceed ==> read == |env.tape|)
      ensures page.Some? ==> read == old(read) + 1 <= |env.tape| && page.value == env.tape[old(read)]
    {
      var fails := CallFails();
      if fails || read == |env.tape| {
        return None;
      }
      page := Some(env.tape[read]);
      read := read + 1;
    }

    /** Add what is new on the page just listed. */
    method AddPage(page: Page, ghost lost: set<string>)
      requires pending == [] && 0 < read <= |env.tape| && page == env.tape[read - 1]
      requires Accounted(Listed(env, read - 1), transferred, [], lost)
      modifies this`pending, this`nextPageToken, this`sourceExhausted
      ensures Current() == NextPage(env, old(Now().(read := read - 1))).state && nextPageToken == Cursor(env, read)
      ensures sourceExhausted == ExhaustedAt(env, read)
      ensures Accounted(Listed(env, read), transferred, pending, lost)
    {
      PageAccounted(env, read - 1, transferred, lost);
      pending := pending + Fresh(page.items, transferred);
      nextPageToken := page.nextPageToken;
      sourceExhausted := page.nextPageToken.None? || page.nextPageToken.value == "";
    }

    /** One turn of the loop of fillPendingItems: list a page, add what is new, persist. */
    method ReadPage(ghost room: int, ghost lost: set<string>) returns (ok: bool)
      requires Valid(lost) && pending == [] && !sourceExhausted && 0 < room
      modifies this`pending, this`nextPageToken, this`sourceExhausted, this`disk, this`diskRead, this`read
      ensures SafeOnDisk(lost)
      ensures ok ==> Valid(lost) && disk == Current() && read == old(read) + 1
      ensures ok ==> Filled(env, old(Now()), room) == Filled(env, Now(), room - 1)
      ensures !ok && env.callsSucceed ==> read == |env.tape|
    {
      var answer := ListMediaItems(nextPageToken);
      if answer.None? {
        return false;
      }
      AddPage(answer.value, lost);
      assert Now() == NextPage(env, old(Now()));
      ok := Persist();
    }

    /** Each page read since then was persisted. */
    ghost predicate SavedSince(diskThen: State, readThen: nat)
      reads this
    {
      disk == if read == readThen then diskThen else Current()
    }

    /** fillPendingItems, called as a batch begins and as it ends; !ok is a throw. */
    method FillPendingItems(maxPagesToScan: int, ghost lost: set<string>) returns (ok: bool)
      requires Valid(lost)
      modifies this`pending, this`nextPageToken, this`sourceExhausted, this`disk, this`diskRead, this`read
      ensures SafeOnDisk(lost)
      ensures ok ==> Valid(lost) && Now() == Filled(env, old(Now()), maxPagesToScan)
      ensures ok ==> SavedSince(old(disk), old(read))
      ensures !ok && env.callsSucceed ==> read == |env.tape|
    {
      var pagesScanned := 0;
      ghost var target := Filled(env, Now(), maxPagesToScan);
      while pending == [] && !sourceExhausted && pagesScanned < maxPagesToScan
        invariant Valid(lost) && pagesScanned == read - old(read) >= 0
        invariant target == Filled(env, Now(), maxPagesToScan - pagesScanned)
        invariant SavedSince(old(disk), old(read))
        decreases |env.tape| - read
      {
        ok := ReadPage(maxPagesToScan - pagesScanned, lost);
        if !ok {
          return;
        }
        pagesScanned := pagesScanned + 1;
        if pending != [] {
          return;
        }
      }
      ok := true;
    }

    /** takePendingForBatch. */
    method TakePendingForBatch(maxItems: int) returns (selected: seq<Item>)
      modifies this`pending
      ensures selected == Taken(old(pending), transferred, maxItems)
      ensures pending == Rest(old(pending), transferred, maxItems)
    {
      selected := [];
      ghost var k := 0;
      while |selected| < maxItems && |pending| > 0
        invariant k <= |old(pending)| && pending == old(pending)[k..]
        invariant selected == Fresh(old(pending)[..k], transferred)
        invariant Consumed(old(pending), transferred, maxItems)
                  == k + Consumed(pending, transferred, maxItems - |selected|)
        decreases |pending|
      {
        var next := pending[0];
        FreshSnoc(old(pending), k, transferred);
        pending := pending[1..];
        k := k + 1;
        if next.id in transferred {
          continue;
        }
        selected := selected + [next];
      }
    }

    method DownloadMediaToLocalFile() returns (size: Option<nat>)
      modifies this`downloads
      ensures size.None? ==> downloads == old(downloads) && !env.callsSucceed
      ensures size.Some? ==> downloads == old(downloads) + 1 && size.value == env.sizeAt(old(downloads))
    {
      var fails := CallFails();
      if fails {
        return None;
      }
      size := Some(env.sizeAt(downloads));
      downloads := downloads + 1;
    }

    /** destination.upload: it receives the file. */
    method Upload(key: string, size: nat) returns (ok: bool)
      modifies this`received
      ensures env.callsSucceed ==> ok
      ensures received == old(received) + if ok then [Record(key, size)] else []
    {
      var fails := CallFails();
      ok := !fails;
      if ok {
        received := received + [Record(key, size)];
      }
    }

    /** verifyUploadedObject: none is a throw. */
    method VerifyUploadedObject(key: string, expectedSize: nat) returns (verified: Option<bool>)
      ensures verified.None? ==> !env.callsSucceed
      ensures verified.Some? ==> (verified.value <==> env.found(|received|, key) == Some(expectedSize))
    {
      var fails := CallFails();
      if fails {
        return None;
      }
      var size := env.found(|received|, key);
      verified := Some(size.Some? && size.value == expectedSize);
    }

    /** Upload, verify, record and persist one item. */
    method UploadItem(item: Item, size: nat) returns (ok: bool)
      modifies this`transferred, this`disk, this`diskRead, this`received
      ensures ok ==> transferred == old(transferred)[item.id := Record(env.keyOf(item), size)]
      ensures ok ==> received == old(received) + [Record(env.keyOf(item), size)]
      ensures ok ==> env.found(|old(received)| + 1, env.keyOf(item)) == Some(size)
      ensures ok ==> disk == Current() && diskRead == read
      ensures !ok ==> disk == old(disk) && diskRead == old(diskRead)
      ensures !ok && env.callsSucceed ==> env.found(|old(received)| + 1, env.keyOf(item)) != Some(size)
    {
      ok := Upload(env.keyOf(item), size);
      if !ok {
        return;
      }
      var verified := VerifyUploadedObject(env.keyOf(item), size);
      if verified != Some(true) {
        return false;
      }
      transferred := transferred[item.id := Record(env.keyOf(item), size)];
      ok := Persist();
    }

    /** The body of the loop over the selected items. */
    method ProcessItem(config: BatchConfig, item: Item, downloadedCount: nat, totalBytes: nat)
      returns (step: Step, size: nat)
      modifies this`pending, this`transferred, this`disk, this`diskRead, this`downloads, this`received
      ensures step.Threw? ==> disk == old(disk) && diskRead == old(diskRead)
      ensures step.Threw? && env.callsSucceed ==>
                !config.dryRun
                && env.found(|old(received)| + 1, env.keyOf(item)) != Some(env.sizeAt(old(downloads)))
      ensures !step.Threw? ==> size == env.sizeAt(old(downloads)) && downloads == old(downloads) + 1
      ensures !step.Threw? ==> (step.Cut? <==> downloadedCount > 0 && totalBytes + size > config.batchMaxBytes)
      ensures step.Cut? ==> pending == [item] + old(pending)
      ensures step.Cut? || (step.Done? && config.dryRun) ==>
                transferred == old(transferred) && received == old(received)
      ensures step.Cut? || (step.Done? && !config.dryRun) ==> disk == Current() && diskRead == read
      ensures step.Done? ==> pending == old(pending)
      ensures step.Done? && config.dryRun ==> disk == old(disk) && diskRead == old(diskRead)
      ensures step.Done? && !config.dryRun ==>
                && transferred == old(transferred)[item.id := Record(env.keyOf(item), size)]
                && received == old(received) + [Record(env.keyOf(item), size)]
                && env.found(|old(received)| + 1, env.keyOf(item)) == Some(size)
    {
      var download := DownloadMediaToLocalFile();
      if download.None? {
        return Threw, 0;
      }
      size := download.value;
      if downloadedCount > 0 && totalBytes + size > config.batchMaxBytes {
        pending := [item] + pending;
        var saved := Persist();
        return if saved then Cut else Threw, size;
      }
      if !config.dryRun {
        var uploaded := UploadItem(item, size);
        if !uploaded {
          return Threw, size;
        }
      }
      step := Done;
    }

    /** The same for the i-th item of the batch, with the batch's books. */
    method ProcessNext(config: BatchConfig, batch: seq<Item>, i: nat, r: BatchResult,
                       ghost records: Records, ghost sent: seq<Record>, ghost from: nat)
      returns (step: Step, now: BatchResult)
      requires i < |batch| && downloads == from + i
      requires Tallied(env, records, sent, transferred, received, batch, i, from, r, config)
      modifies this`pending, this`transferred, this`disk, this`diskRead, this`downloads, this`received
      ensures step.Threw? ==> disk == old(disk) && diskRead == old(diskRead)
      ensures step.Threw? && env.callsSucceed ==>
                !config.dryRun && env.found(|sent| + i + 1, env.keyOf(batch[i])) != Some(env.sizeAt(from + i))
      ensures !step.Threw? ==> downloads == old(downloads) + 1
      ensures step.Cut? ==> transferred == old(transferred) && received == old(received) && now == r
      ensures step.Cut? ==> i == Admitted(env, from, |batch|, config.batchMaxBytes)
      ensures step.Cut? ==> pending == [batch[i]] + old(pending)
      ensures step.Done? ==> pending == old(pending)
      ensures step.Done? ==> Tallied(env, records, sent, transferred, received, batch, i + 1, from, now, config)
      ensures step.Done? && config.dryRun ==> disk == old(disk) && diskRead == old(diskRead)
      ensures step.Cut? || (step.Done? && !config.dryRun) ==> disk == Current() && diskRead == read
    {
      ghost var before, got := transferred, received;
      var size;
      step, size := ProcessItem(config, batch[i], r.downloadedCount, r.totalBytes);
      now := r;
      if step.Cut? {
        AdmittedExactly(env, from, |batch|, config.batchMaxBytes, i);
      }
      if step.Done? {
        TalliedOne(env, records, sent, before, got, transferred, received, batch, i, from, r, config);
        now := Tally(i + 1, r.totalBytes + size, config.dryRun, false);
      }
    }

    /** The loop over the selected items; !ok is a throw at the item after the first `done`. */
    method ProcessSelected(config: BatchConfig, batch: seq<Item>) returns (ok: bool, r: BatchResult, done: nat)
      requires diskRead == read
      modifies this`pending, this`transferred, this`disk, this`diskRead, this`downloads, this`received
      ensures diskRead == read && done <= |batch|
      ensures !ok ==> done < |batch|
      ensures ok ==> done == Admitted(env, old(downloads), |batch|, config.batchMaxBytes)
      ensures ok ==>
                Tallied(env, old(transferred), old(received), transferred, received, batch, done, old(downloads), r,
                        config)
      ensures ok ==> pending == (if done < |batch| then [batch[done]] else []) + old(pending)
      ensures ok ==> downloads == old(downloads) + done + if done < |batch| then 1 else 0
      ensures ok ==> disk == if batch != [] && (!config.dryRun || done < |batch|) then Current() else old(disk)
      ensures !ok ==> disk == if 0 < done && !config.dryRun
                              then MidState(env, old(Current()), batch[..done], old(downloads))
                              else old(disk)
      ensures !ok && env.callsSucceed ==>
                !config.dryRun && env.found(|old(received)| + done + 1, env.keyOf(batch[done]))
                                  != Some(env.sizeAt(old(downloads) + done))
    {
      r := Tally(0, 0, config.dryRun, false);
      var i := 0;
      assert batch[..0] == [];
      while i < |batch|
        invariant 0 <= i <= |batch| && diskRead == read
        invariant pending == old(pending) && downloads == old(downloads) + i
        invariant Tallied(env, old(transferred), old(received), transferred, received, batch, i, old(downloads), r,
                          config)
        invariant disk == if 0 < i && !config.dryRun then Current() else old(disk)
      {
        var step, now := ProcessNext(config, batch, i, r, old(transferred), old(received), old(downloads));
        if step.Threw? {
          return false, r, i;
        }
        if step.Cut? {
          return true, r, i;
        }
        r := now;
        i := i + 1;
      }
      AdmittedExactly(env, old(downloads), |batch|, config.batchMaxBytes, i);
      ok, done := true, i;
    }

    /** The first half of runGoogleApiSingleBatch: fill the pending list and take the batch from it. */
    method SelectBatch(config: BatchConfig, ghost lost: set<string>) returns (ok: bool, batch: seq<Item>)
      requires Valid(lost)
      modifies this`pending, this`nextPageToken, this`sourceExhausted, this`disk, this`diskRead, this`read
      ensures SafeOnDisk(lost)
      ensures var filled := Filled(env, old(Now()), config.maxSourcePagesPerBatch);
              ok ==> && diskRead == read && Now() == Took(filled, config) && batch == Selected(env, old(Now()), config)
                     && Accounted(Listed(env, read), transferred, pending, lost + Ids(batch))
      ensures !ok && env.callsSucceed ==> read == |env.tape|
    {
      ok := FillPendingItems(config.maxSourcePagesPerBatch, lost);
      if !ok {
        return false, [];
      }
      TakeAccounted(Listed(env, read), transferred, pending, config.batchMaxItems, lost);
      batch := TakePendingForBatch(config.batchMaxItems);
    }

    /** The loop over the items, as it leaves the state and its books. */
    method WorkOn(config: BatchConfig, batch: seq<Item>, ghost lost: set<string>)
      returns (ok: bool, r: BatchResult, done: nat)
      requires SafeOnDisk(lost) && diskRead == read
      requires Accounted(Listed(env, read), transferred, pending, lost + Ids(batch))
      modifies this`pending, this`transferred, this`disk, this`diskRead, this`downloads, this`received
      ensures done <= |batch|
      ensures ok ==> done == Admitted(env, old(downloads), |batch|, config.batchMaxBytes)
      ensures ok ==> Valid(lost + Forgotten(batch, done, config.dryRun))
      ensures ok ==> Now() == Worked(env, old(Now()), batch, done, config.dryRun)
      ensures ok ==> config.dryRun || Confirmed(env, batch[..done], old(downloads), |old(received)|)
      ensures ok ==> r == Tally(done, Bytes(env, old(downloads), done), config.dryRun, false)
      ensures !ok ==> done < |batch|
      ensures !ok ==> SafeOnDisk(lost + if config.dryRun || done == 0 then {} else Ids(batch[done..]))
      ensures !ok && 0 < done && !config.dryRun ==>
                disk == MidState(env, old(Current()), batch[..done], old(downloads))
      ensures !ok && env.callsSucceed ==>
                !config.dryRun && env.found(|old(received)| + done + 1, env.keyOf(batch[done]))
                                  != Some(env.sizeAt(old(downloads) + done))
    {
      ok, r, done := ProcessSelected(config, batch);
      ghost var listed := Listed(env, read);
      if ok {
        BatchAccounted(env, listed, old(transferred), old(pending), batch, done, old(downloads), config.dryRun, lost);
      } else {
        MidAccounted(env, listed, old(transferred), old(pending), batch, done, old(downloads), lost);
      }
    }

    /** The same of the batch selected in the state s. */
    method WorkOnSelected(config: BatchConfig, batch: seq<Item>, ghost s: Snapshot, ghost lost: set<string>)
      returns (outcome: Outcome, r: BatchResult)
      requires SafeOnDisk(lost) && diskRead == read && batch == Selected(env, s, config)
      requires Now() == Took(Filled(env, s, config.maxSourcePagesPerBatch), config)
      requires Accounted(Listed(env, read), transferred, pending, lost + Ids(batch))
      modifies this`pending, this`transferred, this`disk, this`diskRead, this`downloads, this`received
      ensures outcome.Finished? || outcome.ThrewAt?
      ensures SafeOnDisk(lost + LostOnDisk(env, s, config, outcome))
      ensures outcome.Finished? ==> Valid(lost + ForgottenIn(env, s, config))
      ensures outcome.Finished? ==> Now() == Processed(env, s, config) && ConfirmedIn(env, s, config)
      ensures var done := DoneIn(env, s, config);
              outcome.Finished? ==> r == Tally(done, Bytes(env, s.downloads, done), config.dryRun, false)
      ensures outcome.ThrewAt? ==> SavedMidway(s, config, outcome.done)
      ensures env.callsSucceed && !outcome.Finished? ==> Explained(s, config, outcome)
    {
      var ok, done;
      ok, r, done := WorkOn(config, batch, lost);
      outcome := if ok then Finished else ThrewAt(done);
    }

    /** runGoogleApiSingleBatch. */
    method SingleBatch(config: BatchConfig, ghost lost: set<string>) returns (outcome: Outcome, r: BatchResult)
      requires Valid(lost)
      modifies this
      ensures SafeOnDisk(lost + LostOnDisk(env, old(Now()), config, outcome))
      ensures outcome.Finished? ==>
                && Valid(lost + ForgottenIn(env, old(Now()), config)) && Now() == After(env, old(Now()), config)
                && r == ResultOf(env, old(Now()), config) && ConfirmedIn(env, old(Now()), config)
      ensures outcome.ThrewAt? ==> SavedMidway(old(Now()), config, outcome.done)
      ensures env.callsSucceed && !outcome.Finished? ==> Explained(old(Now()), config, outcome)
    {
      r := Tally(0, 0, config.dryRun, false);
      ghost var s := Now();
      var ok, batch := SelectBatch(config, lost);
      if !ok {
        return ThrewFilling, r;
      }
      if batch == [] {
        NothingSelected(env, s, config, lost);
        return Finished, r.(completed := sourceExhausted && pending == []);
      }
      outcome, r := WorkOnSelected(config, batch, s, lost);
      if outcome != Finished {
        return;
      }
      ok := FillPendingItems(config.maxSourcePagesPerBatch, lost + ForgottenIn(env, s, config));
      if !ok {
        return ThrewRefilling, r;
      }
      r := r.(completed := sourceExhausted && pending == []);
      outcome := Finished;
    }

    /** After a throw at the item after the first `done` of a batch, and any of them recorded, the state
        on disk is the one saved for the last of them. */
    ghost predicate SavedMidway(s: Snapshot, config: BatchConfig, done: nat)
      reads this
    {
      var took, selected := Took(Filled(env, s, config.maxSourcePagesPerBatch), config), Selected(env, s, config);
      done < |selected|
      && (0 < done && !config.dryRun ==> disk == MidState(env, took.state, selected[..done], s.downloads))
    }

    /** Why a batch threw, when no call failed: the source had no further page, or the size listed for
        an item uploaded was not that of its download. */
    ghost predicate Explained(s: Snapshot, config: BatchConfig, outcome: Outcome)
      reads this
    {
      if outcome.ThrewAt? then
        && !config.dryRun && outcome.done < |Selected(env, s, config)|
        && env.found(|s.received| + outcome.done + 1, env.keyOf(Selected(env, s, config)[outcome.done]))
           != Some(env.sizeAt(s.downloads + outcome.done))
      else
        read == |env.tape|
    }

    /** A throw in the batch taken in the state `last`, when the ids in `lost` were in no list: what the
        state on disk accounts for, and why it threw. */
    ghost predicate FellIn(last: Snapshot, config: BatchConfig, outcome: Outcome, lost: set<string>)
      reads this
    {
      && SafeOnDisk(lost + LostOnDisk(env, last, config, outcome))
      && (outcome.ThrewAt? ==> SavedMidway(last, config, outcome.done))
      && (env.callsSucceed ==> Explained(last, config, outcome))
    }

    /** The same of the n-th batch (from 0) of a run that started in s. */
    ghost predicate FellLater(s: Snapshot, config: BatchConfig, n: nat, outcome: Outcome, lost: set<string>)
      reads this
    {
      FellIn(Iterate(Next(env, config), s, n), config, outcome,
             lost + LostBy(Next(env, config), Forgets(env, config), s, n))
    }

    /** Where a run that started in s stands after these batches. */
    ghost predicate Underway(s: Snapshot, config: BatchConfig, batches: seq<BatchResult>, lost: set<string>)
      reads this
    {
      && Ran(Next(env, config), Result(env, config), Sound(env, config), s, batches, Now())
      && Valid(lost + LostBy(Next(env, config), Forgets(env, config), s, |batches|))
    }

    /** The next batch of a run, when the ids in `known` are in no list, and whether the loop ends with it. */
    method NextBatch(config: BatchConfig, batches: seq<BatchResult>, ghost s: Snapshot, ghost known: set<string>)
      returns (outcome: Outcome, batch: BatchResult, stop: bool)
      requires Valid(known)
      modifies this
      ensures outcome.Finished?
              && Ran(Next(env, config), Result(env, config), Sound(env, config), s, batches, old(Now())) ==>
                && Ran(Next(env, config), Result(env, config), Sound(env, config), s, batches + [batch], Now())
                && Valid(known + Forgets(env, config)(Iterate(Next(env, config), s, |batches|)))
      ensures outcome.Finished? ==> (stop <==> StopsAfter(batch, |batches| + 1, config))
      ensures outcome.Finished? ==> batch.completed == (sourceExhausted && pending == [])
      ensures outcome.Finished? && !stop ==> Shorter(env, Now(), old(Now()))
      ensures !outcome.Finished? ==> FellIn(old(Now()), config, outcome, known)
    {
      Progress(env, Now(), config);
      outcome, batch := SingleBatch(config, known);
      stop := batch.completed || batch.downloadedCount == 0
              || (config.maxBatches.Some? && |batches| + 1 >= config.maxBatches.value);
      OneMoreRan(Next(env, config), Result(env, config), Sound(env, config), s, batches, old(Now()));
    }

    /** The loop over the batches; a throw comes in the batch after those returned. */
    method RunBatches(config: BatchConfig, ghost lost: set<string>)
      returns (outcome: Outcome, batches: seq<BatchResult>)
      requires Valid(lost)
      modifies this
      ensures outcome.Finished? ==> Underway(old(Now()), config, batches, lost) && StopsHere(batches, config)
      ensures outcome.Finished? ==> batches[|batches| - 1].completed == (sourceExhausted && pending == [])
      ensures !outcome.Finished? ==> GoesOn(batches, config) && FellLater(old(Now()), config, |batches|, outcome, lost)
    {
      batches := [];
      assert lost + {} == lost;
      while true
        invariant Underway(old(Now()), config, batches, lost) && GoesOn(batches, config)
        decreases |env.tape| - read, |pending|
      {
        var batch, stop;
        ghost var known := lost + LostBy(Next(env, config), Forgets(env, config), old(Now()), |batches|);
        Union(lost, LostBy(Next(env, config), Forgets(env, config), old(Now()), |batches|),
              Forgets(env, config)(Iterate(Next(env, config), old(Now()), |batches|)));
        outcome, batch, stop := NextBatch(config, batches, old(Now()), known);
        if !outcome.Finished? {
          return;
        }
        ghost var before := batches;
        batches := batches + [batch];
        assert if stop then StopsHere(batches, config) else GoesOn(batches, config) by {
          OneMoreGoesOn(before, batch, config);
        }
        if stop {
          return;
        }
      }
    }

    /** runGoogleApiBatchTransferLoop: the batches and their totals. */
    method Run(config: BatchConfig, ghost lost: set<string>) returns (outcome: Outcome, r: RunResult)
      requires Valid(lost)
      modifies this
      ensures outcome.Finished? ==> Underway(old(Now()), config, r.batches, lost)
      ensures outcome.Finished? ==> StopsHere(r.batches, config) && r.completed == (sourceExhausted && pending == [])
      ensures outcome.Finished? && r.completed ==>
                if read == 0 then env.exhausted else Cursor(env, read) == None || Cursor(env, read) == Some("")
      ensures outcome.Finished? && r.completed && SafeConfig(config) ==> Listed(env, read) <= transferred.Keys + lost
      ensures outcome.Finished? && r.completed && SafeConfig(config) && ListsAll(env) ==>
                Listed(env, |env.tape|) <= transferred.Keys + lost
      ensures outcome.Finished? ==> Verified(env, Now(), old(Now())) && old(transferred).Keys <= transferred.Keys
      ensures outcome.Finished? ==> AllFine(r.batches, config) && Totalled(r, old(received), received, config.dryRun)
      ensures !outcome.Finished? ==> GoesOn(r.batches, config)
                                     && FellLater(old(Now()), config, |r.batches|, outcome, lost)
    {
      var batches;
      outcome, batches := RunBatches(config, lost);
      if !outcome.Finished? {
        return outcome, RunResult(batches, 0, 0, 0, 0, 0, false);
      }
      ghost var forgotten := LostBy(Next(env, config), Forgets(env, config), old(Now()), |batches|);
      SafeRunLosesNothing(env, old(Now()), config, |batches|, lost);
      NonePending(Listed(env, read), transferred, lost + forgotten);
      RunVerified(env, old(Now()), config, batches, Now());
      r := RunResult(batches, Total(batches, Downloaded), Total(batches, Uploaded),
                     Total(batches, VerifiedCount), Total(batches, Deleted),
                     Total(batches, ByteCount), batches[|batches| - 1].completed);
      RunTotalled(env, old(Now()), config, r, Now());
    }
  }

  // ------------------------------------------------------------------ what runs keep

  lemma NonePending(listed: set<string>, transferred: Records, lost: set<string>)
    ensures Accounted(listed, transferred, [], lost) ==> listed <= transferred.Keys + lost
  {
    assert Ids([]) == {};
  }

  predicate WithinCap(b: BatchResult, cap: int) {
    b.totalBytes <= cap || b.downloadedCount <= 1
  }

  predicate Balanced(b: BatchResult, dryRun: bool) {
    b.downloadedCount == b.deletedLocalCount
    && b.uploadedCount == b.verifiedCount == if dryRun then 0 else b.downloadedCount
  }

  /** Each batch is within the byte cap, or a single item, and its counts agree. */
  ghost predicate AllFine(batches: seq<BatchResult>, config: BatchConfig) {
    forall b :: b in batches ==> WithinCap(b, config.batchMaxBytes) && Balanced(b, config.dryRun)
  }

  lemma AfterBatchKeeps(env: Env, t: Snapshot, config: BatchConfig)
    ensures var u, done := After(env, t, config), Selected(env, t, config)[..DoneIn(env, t, config)];
            && u.state.transferred == AfterBatch(env, t.state.transferred, done, t.downloads, config.dryRun)
            && u.received == t.received + Received(env, done, t.downloads, config.dryRun)
  {
  }

  lemma BatchSize(env: Env, s: Snapshot, config: BatchConfig)
    ensures DoneIn(env, s, config) <= |Selected(env, s, config)|
            <= if config.batchMaxItems <= 0 then 0 else config.batchMaxItems
    ensures DoneIn(env, s, config) <= 1 || Bytes(env, s.downloads, DoneIn(env, s, config)) <= config.batchMaxBytes
  {
    var filled := Filled(env, s, config.maxSourcePagesPerBatch).state;
    TakesUpTo(filled.pending, filled.transferred, config.batchMaxItems);
    BatchWithinCap(env, s.downloads, |Selected(env, s, config)|, config.batchMaxBytes);
  }

  lemma ReceivedSize(env: Env, items: seq<Item>, from: nat, dryRun: bool)
    ensures |Received(env, items, from, dryRun)| == if dryRun then 0 else |items|
  {
  }

  /** Of one batch: its size, its counts, and what the destination received. */
  lemma BatchFacts(env: Env, s: Snapshot, config: BatchConfig)
    ensures var r := ResultOf(env, s, config);
            && WithinCap(r, config.batchMaxBytes) && Balanced(r, config.dryRun)
            && r.downloadedCount <= (if config.batchMaxItems <= 0 then 0 else config.batchMaxItems)
            && |After(env, s, config).received| == |s.received| + r.uploadedCount
  {
    BatchSize(env, s, config);
    AfterBatchKeeps(env, s, config);
    ReceivedSize(env, Selected(env, s, config)[..DoneIn(env, s, config)], s.downloads, config.dryRun);
  }

  function Total(batches: seq<BatchResult>, count: BatchResult -> nat): nat {
    if batches == [] then 0 else Total(batches[..|batches| - 1], count) + count(batches[|batches| - 1])
  }

  function Downloaded(b: BatchResult): nat {
    b.downloadedCount
  }

  function Uploaded(b: BatchResult): nat {
    b.uploadedCount
  }

  function VerifiedCount(b: BatchResult): nat {
    b.verifiedCount
  }

  function Deleted(b: BatchResult): nat {
    b.deletedLocalCount
  }

  function ByteCount(b: BatchResult): nat {
    b.totalBytes
  }

  function ReceivedCount(s: Snapshot): nat {
    |s.received|
  }

  /** What every step adds to a measure is, over a run, the total of what its results count. */
  lemma {:induction false} Adds<S(!new)>(step: S -> S, result: S -> BatchResult, sound: S -> bool, s: S,
                                         results: seq<BatchResult>, now: S, count: BatchResult -> nat,
                                         measure: S -> nat)
    requires Ran(step, result, sound, s, results, now)
    requires forall t :: measure(step(t)) == measure(t) + count(result(t))
    ensures measure(now) == measure(s) + Total(results, count)
  {
    if results != [] {
      var n := |results| - 1;
      RanBefore(step, result, sound, s, results, now);
      Adds(step, result, sound, s, results[..n], Iterate(step, s, n), count, measure);
    }
  }

  /** The bytes of what the destination received. */
  function SentBytes(records: seq<Record>): nat {
    if records == [] then 0 else SentBytes(records[..|records| - 1]) + records[|records| - 1].size
  }

  function SentBy(s: Snapshot): nat {
    SentBytes(s.received)
  }

  lemma {:induction false} SentConcat(a: seq<Record>, b: seq<Record>)
    ensures SentBytes(a + b) == SentBytes(a) + SentBytes(b)
  {
    if b == [] {
      assert a + b == a;
    } else {
      assert (a + b)[..|a + b| - 1] == a + b[..|b| - 1];
      SentConcat(a, b[..|b| - 1]);
    }
  }

  lemma {:induction false} UploadBytes(env: Env, items: seq<Item>, from: nat)
    ensures SentBytes(Uploads(env, items, from)) == Bytes(env, from, |items|)
  {
    if items != [] {
      var n := |items| - 1;
      UploadBytes(env, items[..n], from);
      assert Uploads(env, items, from)[..n] == Uploads(env, items[..n], from);
    }
  }

  /** The bytes a real run reports are those of what the destination received. */
  lemma RunBytes(env: Env, s: Snapshot, config: BatchConfig, batches: seq<BatchResult>, now: Snapshot)
    requires !config.dryRun && Ran(Next(env, config), Result(env, config), Sound(env, config), s, batches, now)
    ensures Total(batches, ByteCount) == SentBytes(now.received) - SentBytes(s.received)
  {
    forall t
      ensures SentBy(Next(env, config)(t)) == SentBy(t) + ByteCount(Result(env, config)(t))
    {
      var done := Selected(env, t, config)[..DoneIn(env, t, config)];
      AfterBatchKeeps(env, t, config);
      SentConcat(t.received, Uploads(env, done, t.downloads));
      UploadBytes(env, done, t.downloads);
    }
    Adds(Next(env, config), Result(env, config), Sound(env, config), s, batches, now, ByteCount, SentBy);
  }

  /** The totals of a run agree with each other and with what the destination received. */
  lemma RunTotals(env: Env, s: Snapshot, config: BatchConfig, batches: seq<BatchResult>, now: Snapshot)
    requires Ran(Next(env, config), Result(env, config), Sound(env, config), s, batches, now)
    ensures AllFine(batches, config)
    ensures Total(batches, Downloaded) == Total(batches, Deleted)
    ensures Total(batches, Uploaded) == Total(batches, VerifiedCount)
    ensures Total(batches, Uploaded) == |now.received| - |s.received|
    ensures Total(batches, Uploaded) == if config.dryRun then 0 else Total(batches, Downloaded)
  {
    forall t
      ensures ReceivedCount(Next(env, config)(t)) == ReceivedCount(t) + Uploaded(Result(env, config)(t))
    {
      BatchFacts(env, t, config);
    }
    Adds(Next(env, config), Result(env, config), Sound(env, config), s, batches, now, Uploaded, ReceivedCount);
    RunFine(env, s, config, batches, now);
    BalancedTotals(batches, config.dryRun);
  }

  /** Downloads were deleted; uploads were verified and are what the destination received since, to the
      number and, in a real run, to the byte; a dry run sends nothing. */
  predicate Totalled(r: RunResult, before: seq<Record>, now: seq<Record>, dryRun: bool) {
    && r.totalDownloaded == r.totalDeletedLocal
    && r.totalUploaded == r.totalVerified == |now| - |before|
    && r.totalUploaded == (if dryRun then 0 else r.totalDownloaded)
    && (!dryRun ==> r.totalBytes == SentBytes(now) - SentBytes(before))
  }

  lemma RunTotalled(env: Env, s: Snapshot, config: BatchConfig, r: RunResult, now: Snapshot)
    requires Ran(Next(env, config), Result(env, config), Sound(env, config), s, r.batches, now)
    requires r == RunResult(r.batches, Total(r.batches, Downloaded), Total(r.batches, Uploaded),
                            Total(r.batches, VerifiedCount), Total(r.batches, Deleted),
                            Total(r.batches, ByteCount), r.completed)
    ensures AllFine(r.batches, config) && Totalled(r, s.received, now.received, config.dryRun)
  {
    RunTotals(env, s, config, r.batches, now);
    if !config.dryRun {
      RunBytes(env, s, config, r.batches, now);
    }
  }

  lemma {:induction false} RunFine(env: Env, s: Snapshot, config: BatchConfig, batches: seq<BatchResult>, now: Snapshot)
    requires Ran(Next(env, config), Result(env, config), Sound(env, config), s, batches, now)
    ensures AllFine(batches, config)
  {
    if batches != [] {
      var n := |batches| - 1;
      RanBefore(Next(env, config), Result(env, config), Sound(env, config), s, batches, now);
      RunFine(env, s, config, batches[..n], Iterate(Next(env, config), s, n));
      BatchFacts(env, Iterate(Next(env, config), s, n), config);
      assert batches == batches[..n] + [batches[n]];
    }
  }

  lemma {:induction false} BalancedTotals(batches: seq<BatchResult>, dryRun: bool)
    requires forall b :: b in batches ==> Balanced(b, dryRun)
    ensures Total(batches, Downloaded) == Total(batches, Deleted)
    ensures Total(batches, Uploaded) == Total(batches, VerifiedCount)
            == if dryRun then 0 else Total(batches, Downloaded)
  {
    if batches != [] {
      BalancedTotals(batches[..|batches| - 1], dryRun);
      assert Balanced(batches[|batches| - 1], dryRun);
    }
  }

  /** Every record in t is one of s, or of an upload since s for which the destination listed just the
      size that was downloaded and sent. */
  ghost predicate Verified(env: Env, t: Snapshot, s: Snapshot) {
    forall id :: id in t.state.transferred ==>
      (id in s.state.transferred && t.state.transferred[id] == s.state.transferred[id])
      || exists q :: VerifiedAs(env, t, s, t.state.transferred[id], q)
  }

  ghost predicate VerifiedAs(env: Env, t: Snapshot, s: Snapshot, record: Record, q: nat) {
    |s.received| <= q < |t.received| && t.received[q] == record
    && env.found(q + 1, record.destinationKey) == Some(record.size)
  }

  lemma {:induction false} UploadsAt(env: Env, items: seq<Item>, from: nat, i: nat)
    requires i < |items|
    ensures Uploads(env, items, from)[i] == Record(env.keyOf(items[i]), env.sizeAt(from + i))
  {
    if i < |items| - 1 {
      UploadsAt(env, items[..|items| - 1], from, i);
    }
  }

  lemma {:induction false} RecordedOrigin(env: Env, records: Records, items: seq<Item>, from: nat, id: string)
    returns (i: nat)
    requires var now := Recorded(env, records, items, from);
             id in now && !(id in records && now[id] == records[id])
    ensures i < |items| && Recorded(env, records, items, from)[id] == Record(env.keyOf(items[i]), env.sizeAt(from + i))
  {
    i := |items| - 1;
    if items[i].id != id {
      i := RecordedOrigin(env, records, items[..i], from, id);
    }
  }

  lemma UploadsVerified(env: Env, t: Snapshot, u: Snapshot, items: seq<Item>)
    requires Confirmed(env, items, t.downloads, |t.received|)
    requires u.state.transferred == Recorded(env, t.state.transferred, items, t.downloads)
    requires u.received == t.received + Uploads(env, items, t.downloads)
    ensures Verified(env, u, t)
  {
    forall id | id in u.state.transferred
                && !(id in t.state.transferred && u.state.transferred[id] == t.state.transferred[id])
      ensures exists q :: VerifiedAs(env, u, t, u.state.transferred[id], q)
    {
      var i := RecordedOrigin(env, t.state.transferred, items, t.downloads, id);
      UploadsAt(env, items, t.downloads, i);
      assert VerifiedAs(env, u, t, u.state.transferred[id], |t.received| + i);
    }
  }

  /** The records of a batch are those before it and those it uploaded. */
  lemma BatchVerified(env: Env, t: Snapshot, config: BatchConfig)
    requires ConfirmedIn(env, t, config)
    ensures var u := After(env, t, config);
            && Verified(env, u, t) && t.state.transferred.Keys <= u.state.transferred.Keys
            && |t.received| <= |u.received| && u.received[..|t.received|] == t.received
  {
    AfterBatchKeeps(env, t, config);
    var done := Selected(env, t, config)[..DoneIn(env, t, config)];
    RecordedKeys(env, t.state.transferred, done, t.downloads);
    if !config.dryRun {
      UploadsVerified(env, t, After(env, t, config), done);
    }
  }

  lemma VerifiedTrans(env: Env, u: Snapshot, t: Snapshot, s: Snapshot)
    requires Verified(env, u, t) && Verified(env, t, s)
    requires |s.received| <= |t.received| <= |u.received| && u.received[..|t.received|] == t.received
    ensures Verified(env, u, s)
  {
    forall id | id in u.state.transferred
                && !(id in s.state.transferred && u.state.transferred[id] == s.state.transferred[id])
      ensures exists q :: VerifiedAs(env, u, s, u.state.transferred[id], q)
    {
      var record := u.state.transferred[id];
      if id in t.state.transferred && record == t.state.transferred[id] {
        var q: nat :| VerifiedAs(env, t, s, record, q);
        assert u.received[..|t.received|][q] == u.received[q];
        assert VerifiedAs(env, u, s, record, q);
      } else {
        var q: nat :| VerifiedAs(env, u, t, record, q);
        assert VerifiedAs(env, u, s, record, q);
      }
    }
  }

  /** What every sound step keeps holds at the end of a run. */
  lemma {:induction false} Keeps<S(!new), R>(step: S -> S, result: S -> R, sound: S -> bool, s: S,
                                             results: seq<R>, now: S, inv: S -> bool)
    requires Ran(step, result, sound, s, results, now) && inv(s)
    requires forall t :: inv(t) && sound(t) ==> inv(step(t))
    ensures inv(now)
  {
    if results != [] {
      var n := |results| - 1;
      RanBefore(step, result, sound, s, results, now);
      Keeps(step, result, sound, s, results[..n], Iterate(step, s, n), inv);
    }
  }

  /** Along a run every record is verified, and none is dropped. */
  lemma RunVerified(env: Env, s: Snapshot, config: BatchConfig, batches: seq<BatchResult>, now: Snapshot)
    requires Ran(Next(env, config), Result(env, config), Sound(env, config), s, batches, now)
    ensures Verified(env, now, s) && s.state.transferred.Keys <= now.state.transferred.Keys
  {
    var inv := (t: Snapshot) => |s.received| <= |t.received| && Verified(env, t, s)
                                && s.state.transferred.Keys <= t.state.transferred.Keys;
    forall t | inv(t) && Sound(env, config)(t)
      ensures inv(Next(env, config)(t))
    {
      BatchVerified(env, t, config);
      VerifiedTrans(env, After(env, t, config), t, s);
    }
    Keeps(Next(env, config), Result(env, config), Sound(env, config), s, batches, now, inv);
  }

  // -------------------------------------------------------------------- what is lost

  /** A batch forgets nothing exactly when it is not a dry run of anything and the cap did not end it
      before its last item. */
  lemma ForgetsNothingExactly(selected: seq<Item>, done: nat, dryRun: bool)
    requires done <= |selected|
    ensures Forgotten(selected, done, dryRun) == {} <==> (dryRun ==> done == 0) && |selected| <= done + 1
  {
    if dryRun && done > 0 {
      assert selected[..done][0] == selected[0];
      assert selected[0].id in Ids(selected[..done]);
    }
    if done + 1 < |selected| {
      assert selected[done + 1..][0] == selected[done + 1];
      assert selected[done + 1].id in Ids(selected[done + 1..]);
    }
  }

  /** The batch taken in s is no dry run of anything, and the cap does not end it before its last item. */
  predicate Spares(env: Env, s: Snapshot, config: BatchConfig) {
    (config.dryRun ==> DoneIn(env, s, config) == 0) && |Selected(env, s, config)| <= DoneIn(env, s, config) + 1
  }

  function Sparing(env: Env, config: BatchConfig): Snapshot -> bool {
    (s: Snapshot) => Spares(env, s, config)
  }

  lemma {:induction false} LosesNothingExactly<S(!new)>(step: S -> S, lose: S -> set<string>, good: S -> bool, s: S,
                                                        n: nat)
    requires forall t :: lose(t) == {} <==> good(t)
    ensures LostBy(step, lose, s, n) == {} <==> AllGood(step, good, s, n)
  {
    if n > 0 {
      LosesNothingExactly(step, lose, good, s, n - 1);
      var before, last := LostBy(step, lose, s, n - 1), Iterate(step, s, n - 1);
      assert before <= before + lose(last) && lose(last) <= before + lose(last);
    }
  }

  /** A run forgets nothing exactly when each of its batches spares its items. */
  lemma RunForgetsNothingExactly(env: Env, s: Snapshot, config: BatchConfig, n: nat)
    ensures LostBy(Next(env, config), Forgets(env, config), s, n) == {}
            <==> AllGood(Next(env, config), Sparing(env, config), s, n)
  {
    forall t
      ensures Forgets(env, config)(t) == {} <==> Sparing(env, config)(t)
    {
      ForgetsNothingExactly(Selected(env, t, config), DoneIn(env, t, config), config.dryRun);
    }
    LosesNothingExactly(Next(env, config), Forgets(env, config), Sparing(env, config), s, n);
  }

  /** What a caller can check: at most two items a batch, or none in a dry run. */
  predicate SafeConfig(config: BatchConfig) {
    config.batchMaxItems <= if config.dryRun then 0 else 2
  }

  lemma SafeConfigSpares(env: Env, s: Snapshot, config: BatchConfig)
    requires SafeConfig(config)
    ensures Spares(env, s, config) && ForgottenIn(env, s, config) == {}
  {
    var filled := Filled(env, s, config.maxSourcePagesPerBatch).state;
    TakesUpTo(filled.pending, filled.transferred, config.batchMaxItems);
    BatchWithinCap(env, s.downloads, |Selected(env, s, config)|, config.batchMaxBytes);
    ForgetsNothingExactly(Selected(env, s, config), DoneIn(env, s, config), config.dryRun);
  }

  lemma {:induction false} NeverLoses<S(!new)>(step: S -> S, lose: S -> set<string>, s: S, n: nat)
    requires forall t :: lose(t) == {}
    ensures LostBy(step, lose, s, n) == {}
  {
    if n > 0 {
      NeverLoses(step, lose, s, n - 1);
    }
  }

  lemma SafeRunForgetsNothing(env: Env, s: Snapshot, config: BatchConfig, n: nat)
    requires SafeConfig(config)
    ensures LostBy(Next(env, config), Forgets(env, config), s, n) == {}
  {
    forall t
      ensures Forgets(env, config)(t) == {}
    {
      SafeConfigSpares(env, t, config);
    }
    NeverLoses(Next(env, config), Forgets(env, config), s, n);
  }

  lemma SafeRunLosesNothing(env: Env, s: Snapshot, config: BatchConfig, n: nat, lost: set<string>)
    ensures SafeConfig(config) ==> lost + LostBy(Next(env, config), Forgets(env, config), s, n) == lost
  {
    if SafeConfig(config) {
      SafeRunForgetsNothing(env, s, config, n);
    }
  }

  lemma {:induction false} TakesAll(pending: seq<Item>, transferred: Records, room: int)
    requires |pending| <= room && forall i :: 0 <= i < |pending| ==> pending[i].id !in transferred
    ensures Consumed(pending, transferred, room) == |pending|
    ensures Fresh(pending, transferred) == pending
  {
    if pending != [] {
      TakesAll(pending[1..], transferred, room - 1);
      assert pending == [pending[0]] + pending[1..];
      FreshConcat([pending[0]], pending[1..], transferred);
      FreshOne(pending[0], transferred);
    }
  }

  const A := Item("a", "a.jpg", "image/jpeg", "")
  const B := Item("b", "b.jpg", "image/jpeg", "")
  const C := Item("c", "c.jpg", "image/jpeg", "")
  /** A state file with three pending items of an exhausted source. */
  const THREE := Snapshot(State([A, B, C], map[], None, true), 0, 0, [])

  lemma ThreeSelected(env: Env, config: BatchConfig)
    requires config.batchMaxItems >= 3
    ensures Filled(env, THREE, config.maxSourcePagesPerBatch) == THREE && Selected(env, THREE, config) == [A, B, C]
  {
    TakesAll([A, B, C], map[], config.batchMaxItems);
    assert [A, B, C][..3] == [A, B, C];
  }

  /** Three pending items of which the second does not fit: the cut puts back only the second, and the
      third is neither transferred nor pending. */
  lemma CapBreakForgets(env: Env, config: BatchConfig)
    requires config.batchMaxItems >= 3 && !config.dryRun && env.sizeAt(0) + env.sizeAt(1) > config.batchMaxBytes
    ensures ForgottenIn(env, THREE, config) == {C.id}
    ensures C.id !in After(env, THREE, config).state.transferred && After(env, THREE, config).state.pending == [B]
  {
    ThreeSelected(env, config);
    assert Bytes(env, 0, 1) == Bytes(env, 0, 0) + env.sizeAt(0);
    AdmittedExactly(env, 0, 3, config.batchMaxBytes, 1);
    var selected := [A, B, C];
    assert selected[2..] == [C] && selected[..1] == [A];
    RecordedKeys(env, map[], [A], 0);
    assert Ids([A]) == {A.id} && Ids([C]) == {C.id};
    ThreeRest(env, config);
  }

  lemma ThreeRest(env: Env, config: BatchConfig)
    requires config.batchMaxItems >= 3
    ensures Rest([A, B, C], map[], config.batchMaxItems) == []
  {
    TakesAll([A, B, C], map[], config.batchMaxItems);
  }

  /** Exactly the safe settings forget nothing whatever the state, the sizes and the answers are. */
  lemma SafeConfigExactly(config: BatchConfig)
    ensures SafeConfig(config) <==> forall env: Env, s: Snapshot :: ForgottenIn(env, s, config) == {}
  {
    if SafeConfig(config) {
      forall env: Env, s: Snapshot
        ensures ForgottenIn(env, s, config) == {}
      {
        SafeConfigSpares(env, s, config);
      }
    } else {
      var big := if config.batchMaxBytes < 0 then 0 else config.batchMaxBytes;
      var env := Env((item: Item) => item.id, [], None, true, (n: nat) => if n == 0 then 1 else big,
                     (q: nat, key: string) => None, true);
      if config.dryRun {
        DryRunForgets(env, config);
      } else {
        CapBreakForgets(env, config);
      }
    }
  }

  /** A dry run of a batch forgets what it processed. */
  lemma DryRunForgets(env: Env, config: BatchConfig)
    requires config.dryRun && config.batchMaxItems >= 1
    ensures ForgottenIn(env, Snapshot(State([A], map[], None, true), 0, 0, []), config) != {}
  {
    var s := Snapshot(State([A], map[], None, true), 0, 0, []);
    TakesAll([A], map[], config.batchMaxItems);
    assert [A][..1] == [A] && Selected(env, s, config) == [A];
    BatchWithinCap(env, 0, 1, config.batchMaxBytes);
    ForgetsNothingExactly([A], DoneIn(env, s, config), true);
  }

  /** What the state file loses by a throw in mid-batch: the ids of the items still to come, unless
      they are also elsewhere. */
  lemma AtRiskIsLost(env: Env, state: State, selected: seq<Item>, done: nat, from: nat, i: nat)
    requires done <= i < |selected|
    requires selected[i].id !in state.transferred && selected[i].id !in Ids(state.pending)
    requires selected[i].id !in Ids(selected[..done])
    ensures var saved := MidState(env, state, selected[..done], from);
            !Accounted({selected[i].id}, saved.transferred, saved.pending, {})
  {
    RecordedKeys(env, state.transferred, selected[..done], from);
    assert selected[i].id in {selected[i].id};
  }
}
