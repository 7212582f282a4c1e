/** The life of batch ids in range sync: issued, pending, completed out of order, processed
    in order, done; or lost to a failed send, an out-of-range answer or a failed batch. */
module SyncSchedule {
  import opened Basics

  const BLOCKS_PER_BATCH: nat := 5
  const BATCH_BUFFER_SIZE: nat := 5

  datatype Schedule = Schedule(
    pending: map<nat, nat>,        // request id to batch id
    completed: seq<nat>,
    processing: Option<nat>,
    done: seq<nat>,
    lost: set<nat>,
    toBeDownloaded: nat,
    toBeProcessed: nat)

  datatype Event =
    | Issue(sent: Option<nat>)  // None: the request could not be sent
    | Arrive(request: nat)
    | Reject(request: nat)
    | Start
    | Succeed
    | Fail

  const FRESH := Schedule(map[], [], None, [], {}, 1, 1)

  predicate Enabled(s: Schedule, e: Event) {
    match e
    case Issue(r) => |s.completed| + |s.pending| <= BATCH_BUFFER_SIZE && (r.Some? ==> r.value !in s.pending)
    case Arrive(r) => r in s.pending
    case Reject(r) => r in s.pending
    case Start => s.processing.None? && |s.completed| > 0 && s.completed[0] == s.toBeProcessed
    case Succeed => s.processing.Some?
    case Fail => s.processing.Some?
  }

  /** Where a binary search by id would put a completed batch. */
  function Slot(ids: seq<nat>, id: nat): (i: nat)
    ensures i <= |ids|
    ensures forall j :: 0 <= j < i ==> ids[j] < id
    ensures i < |ids| ==> id <= ids[i]
  {
    if |ids| == 0 || id <= ids[0] then 0 else 1 + Slot(ids[1..], id)
  }

  /** The id after the last one issued or completed. */
  function NextDownload(s: Schedule): (id: nat) {
    var last := if |s.completed| > 0 then s.completed[|s.completed| - 1] else 0;
    if s.toBeDownloaded > last then s.toBeDownloaded + 1 else last + 1
  }

  function Next(s: Schedule, e: Event): (s': Schedule)
    requires Enabled(s, e)
  {
    match e
    case Issue(r) =>
      var s1 := s.(toBeDownloaded := NextDownload(s));
      if r.Some? then s1.(pending := s.pending[r.value := s.toBeDownloaded]) else s1.(lost := s.lost + {s.toBeDownloaded})
    case Arrive(r) =>
      s.(pending := s.pending - {r}, completed := Insert(s.completed, Slot(s.completed, s.pending[r]), s.pending[r]))
    case Reject(r) =>
      s.(pending := s.pending - {r}, lost := s.lost + {s.pending[r]}, toBeProcessed := s.pending[r])
    case Start =>
      s.(processing := Some(s.completed[0]), completed := s.completed[1..])
    case Succeed =>
      s.(processing := None, done := s.done + [s.processing.value], toBeProcessed := s.toBeProcessed + 1)
    case Fail =>
      s.(processing := None, lost := s.lost + {s.processing.value})
  }

  ghost predicate Pending(s: Schedule, id: nat) {
    exists r :: r in s.pending && s.pending[r] == id
  }

  function Bit(b: bool): (n: nat) {
    if b then 1 else 0
  }

  /** In how many places an id is. */
  ghost function Places(s: Schedule, id: nat): (n: nat) {
    Bit(Pending(s, id)) + Bit(id in s.completed) + Bit(s.processing == Some(id)) + Bit(id in s.done) + Bit(id in s.lost)
  }

  ghost predicate Ascending(ids: seq<nat>) {
    forall i, j :: 0 <= i < j < |ids| ==> ids[i] < ids[j]
  }

  /** Every issued id is in exactly one place, and nothing else is anywhere. */
  ghost predicate Partitioned(s: Schedule) {
    && (forall id: nat :: Places(s, id) == Bit(1 <= id < s.toBeDownloaded))
    && (forall r, r' :: r in s.pending && r' in s.pending && s.pending[r] == s.pending[r'] ==> r == r')
    && Ascending(s.completed) && s.toBeDownloaded >= 1
    && |s.completed| + |s.pending| <= BATCH_BUFFER_SIZE + 1
  }

  function UpTo(n: nat): (r: seq<nat>)
    ensures |r| == n && forall i :: 0 <= i < n ==> r[i] == i + 1
  {
    seq(n, i => i + 1)
  }

  /** Batches are processed in order: exactly the ids below the next one are done. */
  ghost predicate InOrder(s: Schedule) {
    && s.toBeProcessed >= 1 && s.done == UpTo(s.toBeProcessed - 1)
    && (s.processing.Some? ==> s.processing.value == s.toBeProcessed)
  }

  ghost predicate RunOf(s: Schedule, events: seq<Event>, s': Schedule)
    decreases |events|
  {
    if |events| == 0 then s' == s
    else Enabled(s, events[0]) && RunOf(Next(s, events[0]), events[1..], s')
  }

  /** The requests a run sends, in order, each with the batch it is for. */
  ghost function Requests(s: Schedule, events: seq<Event>): (r: seq<(nat, nat)>)
    decreases |events|
  {
    if |events| == 0 || !Enabled(s, events[0]) then []
    else RequestOf(s, events[0]) + Requests(Next(s, events[0]), events[1..])
  }

  lemma {:induction false} FirstEvent(s: Schedule, events: seq<Event>, s': Schedule)
    requires RunOf(s, events, s')
    ensures |events| == 0 ==> s' == s
    ensures |events| > 0 ==> Enabled(s, events[0]) && RunOf(Next(s, events[0]), events[1..], s')
  {}

  /** The request that an event sends. */
  ghost function RequestOf(s: Schedule, e: Event): (r: seq<(nat, nat)>) {
    if e.Issue? && e.sent.Some? then [(e.sent.value, s.toBeDownloaded)] else []
  }

  lemma {:induction false} FirstRequest(s: Schedule, events: seq<Event>)
    ensures |events| == 0 ==> Requests(s, events) == []
    ensures |events| > 0 && Enabled(s, events[0]) ==>
              Requests(s, events) == RequestOf(s, events[0]) + Requests(Next(s, events[0]), events[1..])
  {}

  lemma {:induction false} RequestsConcat(a: Schedule, xs: seq<Event>, b: Schedule, ys: seq<Event>)
    requires RunOf(a, xs, b)
    ensures Requests(a, xs + ys) == Requests(a, xs) + Requests(b, ys)
    decreases |xs|
  {
    hide Next, Enabled, RunOf, Requests, RequestOf;
    FirstEvent(a, xs, b);
    FirstRequest(a, xs);
    if |xs| == 0 {
      assert xs + ys == ys;
    } else {
      var next, head := Next(a, xs[0]), RequestOf(a, xs[0]);
      RequestsConcat(next, xs[1..], b, ys);
      FirstRequest(a, xs + ys);
      assert (xs + ys)[1..] == xs[1..] + ys && (xs + ys)[0] == xs[0];
      assert head + (Requests(next, xs[1..]) + Requests(b, ys)) == head + Requests(next, xs[1..]) + Requests(b, ys);
    }
  }

  lemma {:induction false} RunConcat(a: Schedule, xs: seq<Event>, b: Schedule, ys: seq<Event>, c: Schedule)
    requires RunOf(a, xs, b) && RunOf(b, ys, c)
    ensures RunOf(a, xs + ys, c)
    decreases |xs|
  {
    if |xs| == 0 {
      assert xs + ys == ys;
    } else {
      RunConcat(Next(a, xs[0]), xs[1..], b, ys, c);
      assert (xs + ys)[1..] == xs[1..] + ys;
    }
  }

  lemma {:induction false} InsertKeepsAscending(ids: seq<nat>, id: nat)
    requires Ascending(ids) && id !in ids
    ensures Ascending(Insert(ids, Slot(ids, id), id))
  {
    hide Slot;
    var i := Slot(ids, id);
    var r := Insert(ids, i, id);
    if i < |ids| { assert ids[i] != id; }
    forall a, b | 0 <= a < b < |r| ensures r[a] < r[b] {
      var a', b' := if a < i then a else a - 1, if b < i then b else b - 1;
      if a == i {
        assert r[b] == ids[b'] && ids[i] <= ids[b'];
      } else if b == i {
        assert r[a] == ids[a'];
      } else {
        assert r[a] == ids[a'] && r[b] == ids[b'];
      }
    }
  }

  /** Ids in use are below the next download, so that one simply counts up. */
  lemma {:induction false} DownloadCountsUp(s: Schedule)
    requires Partitioned(s)
    ensures NextDownload(s) == s.toBeDownloaded + 1
  {
    if |s.completed| > 0 {
      var last := s.completed[|s.completed| - 1];
      assert last in s.completed;
      assert Places(s, last) <= 1;
    }
  }

  /** Every event keeps every issued id in exactly one place and the buffer bounded. */
  lemma {:induction false} StepPartitioned(s: Schedule, e: Event)
    requires Partitioned(s) && Enabled(s, e)
    ensures Partitioned(Next(s, e))
  {
    var s' := Next(s, e);
    match e {
      case Issue(r) => IssuePartitioned(s, r);
      case Arrive(r) => ArrivePartitioned(s, r);
      case Reject(r) => RejectPartitioned(s, r);
      case Start =>
        StartPartitioned(s);
      case Succeed =>
        forall id: nat ensures Places(s', id) == Places(s, id) { assert Pending(s', id) <==> Pending(s, id); }
      case Fail =>
        forall id: nat ensures Places(s', id) == Places(s, id) { assert Pending(s', id) <==> Pending(s, id); }
    }
  }

  lemma {:induction false} IssuePartitioned(s: Schedule, r: Option<nat>)
    requires Partitioned(s) && Enabled(s, Issue(r))
    ensures Partitioned(Next(s, Issue(r)))
  {
    DownloadCountsUp(s);
    var s', new_ := Next(s, Issue(r)), s.toBeDownloaded;
    assert Places(s, new_) == 0;
    forall id: nat ensures Places(s', id) == Bit(1 <= id < s'.toBeDownloaded) {
      assert Places(s, id) == Bit(1 <= id < s.toBeDownloaded);
      if r.Some? {
        if id == new_ { assert r.value in s'.pending; }
        else { PendingAdd(s.pending, r.value, new_, s, s', id); }
      } else {
        assert Pending(s', id) <==> Pending(s, id);
      }
    }
    if r.Some? {
      assert |s'.pending| == |s.pending| + 1;
      forall a, b | a in s'.pending && b in s'.pending && s'.pending[a] == s'.pending[b] ensures a == b {
        if a != b { assert Pending(s, new_); }
      }
    }
  }

  lemma {:induction false} PendingAdd(m: map<nat, nat>, r: nat, new_: nat, s: Schedule, s': Schedule, id: nat)
    requires s.pending == m && r !in m && s'.pending == m[r := new_] && id != new_
    ensures Pending(s', id) <==> Pending(s, id)
  {
    if Pending(s, id) { var k :| k in m && m[k] == id; assert k in s'.pending && s'.pending[k] == id; }
    if Pending(s', id) { var k :| k in s'.pending && s'.pending[k] == id; assert k in m; }
  }

  lemma {:induction false} PendingDrop(s: Schedule, s': Schedule, r: nat, id: nat)
    requires Partitioned(s) && r in s.pending && s'.pending == s.pending - {r}
    ensures Pending(s', id) <==> Pending(s, id) && id != s.pending[r]
    ensures |s'.pending| == |s.pending| - 1
  {
    assert s'.pending.Keys == s.pending.Keys - {r};
    if Pending(s, id) && id != s.pending[r] { var k :| k in s.pending && s.pending[k] == id; assert k in s'.pending; }
    if Pending(s', id) { var k :| k in s'.pending && s'.pending[k] == id; assert k in s.pending; }
  }

  lemma {:induction false} ArrivePartitioned(s: Schedule, r: nat)
    requires Partitioned(s) && r in s.pending
    ensures Partitioned(Next(s, Arrive(r)))
  {
    var s', b := Next(s, Arrive(r)), s.pending[r];
    assert Pending(s, b) && Places(s, b) <= 1;
    InsertKeepsAscending(s.completed, b);
    InsertMembers(s.completed, Slot(s.completed, b), b);
    forall id: nat ensures Places(s', id) == Places(s, id) { PendingDrop(s, s', r, id); }
    PendingDrop(s, s', r, b);
  }

  lemma {:induction false} RejectPartitioned(s: Schedule, r: nat)
    requires Partitioned(s) && r in s.pending
    ensures Partitioned(Next(s, Reject(r)))
  {
    var s', b := Next(s, Reject(r)), s.pending[r];
    assert Pending(s, b) && Places(s, b) <= 1;
    forall id: nat ensures Places(s', id) == Places(s, id) { PendingDrop(s, s', r, id); }
    PendingDrop(s, s', r, b);
  }

  lemma {:induction false} StartPartitioned(s: Schedule)
    requires Partitioned(s) && Enabled(s, Start)
    ensures Partitioned(Next(s, Start))
  {
    var s' := Next(s, Start);
    assert s.completed == [s.completed[0]] + s'.completed;
    forall id: nat ensures Places(s', id) == Places(s, id) { assert Pending(s', id) <==> Pending(s, id); }
  }

  /** In-order processing survives every event but an out-of-range answer for a batch that
      was not the next one to process. */
  lemma {:induction false} StepInOrder(s: Schedule, e: Event)
    requires Partitioned(s) && InOrder(s) && Enabled(s, e)
    ensures InOrder(Next(s, e)) <==> (e.Reject? ==> s.pending[e.request] == s.toBeProcessed)
  {
    var s' := Next(s, e);
    match e {
      case Succeed => assert UpTo(s.toBeProcessed) == UpTo(s.toBeProcessed - 1) + [s.toBeProcessed];
      case Reject(r) =>
        var b := s.pending[r];
        assert Pending(s, b) && Places(s, b) <= 1;
        assert b >= 1;
        if InOrder(s') { assert |s'.done| == b - 1; }
      case _ =>
    }
  }

  /** No event is an out-of-range answer for a batch other than the next one to process. */
  ghost predicate Calm(s: Schedule, events: seq<Event>)
    decreases |events|
  {
    |events| > 0 && Enabled(s, events[0]) ==>
      && (events[0].Reject? ==> s.pending[events[0].request] == s.toBeProcessed)
      && Calm(Next(s, events[0]), events[1..])
  }

  /** Order holds before, between and after the events. */
  ghost predicate AlwaysInOrder(s: Schedule, events: seq<Event>)
    decreases |events|
  {
    InOrder(s) && (|events| > 0 && Enabled(s, events[0]) ==> AlwaysInOrder(Next(s, events[0]), events[1..]))
  }

  ghost predicate Clean(events: seq<Event>) {
    forall i :: 0 <= i < |events| ==> !events[i].Reject? && !events[i].Fail? && events[i] != Issue(None)
  }

  /** Every event that is not clean loses one more batch; nothing lost comes back. */
  lemma {:induction false} StepLoses(s: Schedule, e: Event)
    requires Partitioned(s) && Enabled(s, e)
    ensures s.lost <= Next(s, e).lost
    ensures Next(s, e).lost == s.lost <==> Clean([e])
  {
    var gone := match e
      case Issue(_) => s.toBeDownloaded
      case Reject(r) => s.pending[r]
      case Fail => s.processing.value
      case _ => 0;
    assert e.Reject? ==> Pending(s, gone);
    assert Places(s, gone) <= 1;
    if Clean([e]) { assert [e][0] == e; } else { assert gone !in s.lost && gone in Next(s, e).lost; }
  }

  /** Over every run: issued ids stay partitioned; batches are done in order 1, 2, 3, ... all
      the way exactly in calm runs; nothing is lost exactly in clean runs, which are calm. */
  lemma {:induction false} RunKeepsSchedule(s: Schedule, events: seq<Event>, s': Schedule)
    requires Partitioned(s) && RunOf(s, events, s')
    ensures Partitioned(s')
    ensures InOrder(s) ==> (AlwaysInOrder(s, events) <==> Calm(s, events))
    ensures AlwaysInOrder(s, events) ==> InOrder(s')
    ensures Clean(events) ==> Calm(s, events)
    ensures s.lost <= s'.lost && (Clean(events) <==> s'.lost == s.lost)
    decreases |events|
  {
    hide Partitioned, InOrder;
    if |events| > 0 {
      var e, rest := events[0], events[1..];
      StepPartitioned(s, e);
      StepLoses(s, e);
      if InOrder(s) { StepInOrder(s, e); }
      RunKeepsSchedule(Next(s, e), rest, s');
      if !InOrder(Next(s, e)) { assert !AlwaysInOrder(Next(s, e), rest); }
      CleanSplits(events);
    }
  }

  lemma {:induction false} CleanSplits(events: seq<Event>)
    requires |events| > 0
    ensures Clean(events) <==> Clean([events[0]]) && Clean(events[1..])
  {
    if Clean([events[0]]) && Clean(events[1..]) {
      assert [events[0]][0] == events[0];
      forall i | 0 <= i < |events| ensures !events[i].Reject? && !events[i].Fail? && events[i] != Issue(None) {
        if i > 0 { assert events[i] == events[1..][i - 1]; }
      }
    }
  }

  lemma {:induction false} CalmConcat(a: Schedule, xs: seq<Event>, b: Schedule, ys: seq<Event>)
    requires RunOf(a, xs, b)
    ensures Calm(a, xs + ys) <==> Calm(a, xs) && Calm(b, ys)
    decreases |xs|
  {
    if |xs| == 0 {
      assert xs + ys == ys;
    } else {
      CalmConcat(Next(a, xs[0]), xs[1..], b, ys);
      assert (xs + ys)[1..] == xs[1..] + ys;
    }
  }

  lemma {:induction false} FreshIsTidy()
    ensures Partitioned(FRESH) && InOrder(FRESH)
  {
    forall id: nat ensures Places(FRESH, id) == 0 { assert !Pending(FRESH, id); }
  }

  lemma {:induction false} RunStep(s: Schedule, events: seq<Event>, s': Schedule, e: Event)
    requires RunOf(s, events, s') && Enabled(s', e)
    ensures RunOf(s, events + [e], Next(s', e))
  {
    assert RunOf(s', [e], Next(s', e)) by { assert [e][1..] == []; }
    RunConcat(s, events, s', [e], Next(s', e));
  }

  ghost predicate Skipped(s: Schedule) {
    && s.done == [1, 4] && Pending(s, 2) && 3 in s.lost
    && s.toBeProcessed - 1 >= BatchCount(0, 4 * BLOCKS_PER_BATCH) == 4
  }

  /** An out-of-range answer can make the chain process a batch before its predecessor: here
      batch 4 is done while batch 2 has not even arrived and batch 3 is lost.  A chain of four
      batches then counts as complete. */
  lemma {:induction false} OutOfRangeAnswerSkipsBatch()
    ensures exists events, s' :: RunOf(FRESH, events, s') && Skipped(s')
  {
    var s4 := Schedule(map[0 := 1, 1 := 2, 2 := 3, 3 := 4], [], None, [], {}, 5, 1);
    RunStep(FRESH, [], FRESH, Issue(Some(0)));
    var s1 := Next(FRESH, Issue(Some(0)));
    RunStep(FRESH, [] + [Issue(Some(0))], s1, Issue(Some(1)));
    var s2 := Next(s1, Issue(Some(1)));
    RunStep(FRESH, [] + [Issue(Some(0))] + [Issue(Some(1))], s2, Issue(Some(2)));
    var s3 := Next(s2, Issue(Some(2)));
    var e3 := [] + [Issue(Some(0))] + [Issue(Some(1))] + [Issue(Some(2))];
    RunStep(FRESH, e3, s3, Issue(Some(3)));
    var e4 := e3 + [Issue(Some(3))];
    assert s4 == Next(s3, Issue(Some(3)));
    SkippingRun(e4, s4);
  }

  lemma {:induction false} SkippingRun(e4: seq<Event>, s4: Schedule)
    requires RunOf(FRESH, e4, s4)
    requires s4 == Schedule(map[0 := 1, 1 := 2, 2 := 3, 3 := 4], [], None, [], {}, 5, 1)
    ensures exists events, s' :: RunOf(FRESH, events, s') && Skipped(s')
  {
    hide RunOf;
    RunStep(FRESH, e4, s4, Arrive(0));
    var e5, s5 := e4 + [Arrive(0)], Schedule(map[1 := 2, 2 := 3, 3 := 4], [1], None, [], {}, 5, 1);
    assert Next(s4, Arrive(0)) == s5;
    RunStep(FRESH, e5, s5, Start);
    var e6, s6 := e5 + [Start], Schedule(map[1 := 2, 2 := 3, 3 := 4], [], Some(1), [], {}, 5, 1);
    assert Next(s5, Start) == s6;
    SkippingReject(e6, s6);
  }

  lemma {:induction false} SkippingReject(e6: seq<Event>, s6: Schedule)
    requires RunOf(FRESH, e6, s6) && s6 == Schedule(map[1 := 2, 2 := 3, 3 := 4], [], Some(1), [], {}, 5, 1)
    ensures exists events, s' :: RunOf(FRESH, events, s') && Skipped(s')
  {
    hide RunOf;
    RunStep(FRESH, e6, s6, Reject(2));
    var e7, s7 := e6 + [Reject(2)], Schedule(map[1 := 2, 3 := 4], [], Some(1), [], {3}, 5, 3);
    assert s6.pending - {2} == s7.pending;
    assert Next(s6, Reject(2)) == s7;
    SkippingEnd(e7, s7);
  }

  lemma {:induction false} SkippingEnd(e7: seq<Event>, s7: Schedule)
    requires RunOf(FRESH, e7, s7) && s7 == Schedule(map[1 := 2, 3 := 4], [], Some(1), [], {3}, 5, 3)
    ensures exists events, s' :: RunOf(FRESH, events, s') && Skipped(s')
  {
    hide RunOf;
    RunStep(FRESH, e7, s7, Succeed);
    var e8, s8 := e7 + [Succeed], Schedule(map[1 := 2, 3 := 4], [], None, [1], {3}, 5, 4);
    assert Next(s7, Succeed) == s8;
    RunStep(FRESH, e8, s8, Arrive(3));
    var e9, s9 := e8 + [Arrive(3)], Schedule(map[1 := 2], [4], None, [1], {3}, 5, 4);
    assert Next(s8, Arrive(3)) == s9;
    RunStep(FRESH, e9, s9, Start);
    var e10, s10 := e9 + [Start], Schedule(map[1 := 2], [], Some(4), [1], {3}, 5, 4);
    assert Next(s9, Start) == s10;
    RunStep(FRESH, e10, s10, Succeed);
    var s11 := Schedule(map[1 := 2], [], None, [1, 4], {3}, 5, 5);
    assert Next(s10, Succeed) == s11;
    assert s11.pending[1] == 2 && Pending(s11, 2);
    assert Skipped(s11);
  }

  /** A lost batch is never fetched again: once the next batch to process is lost, no calm run
      ever finishes another batch. */
  lemma {:induction false} LostBatchStalls(s: Schedule, events: seq<Event>, s': Schedule)
    requires Partitioned(s) && RunOf(s, events, s') && Calm(s, events)
    requires s.processing.None? && s.toBeProcessed in s.lost
    ensures s'.done == s.done && s'.toBeProcessed == s.toBeProcessed && s'.processing.None?
    decreases |events|
  {
    hide Partitioned;
    if |events| > 0 {
      var e := events[0];
      LostNeverStarts(s);
      StepPartitioned(s, e);
      LostBatchStalls(Next(s, e), events[1..], s');
    }
  }

  lemma {:induction false} LostNeverStarts(s: Schedule)
    requires Partitioned(s) && s.toBeProcessed in s.lost
    ensures !Enabled(s, Start) && !Pending(s, s.toBeProcessed)
  {
    assert Places(s, s.toBeProcessed) <= 1;
  }

  function FirstBlock(start: nat, id: nat): (n: int) {
    start + (id - 1) * BLOCKS_PER_BATCH + 1
  }

  /** One past the last block of a batch, cut off at the target. */
  function EndBlock(start: nat, target: nat, id: nat): (n: int) {
    var end := FirstBlock(start, id) + BLOCKS_PER_BATCH;
    if end < target + 1 then end else target + 1
  }

  predicate Covers(start: nat, target: nat, id: nat, block: nat) {
    FirstBlock(start, id) <= block < EndBlock(start, target, id)
  }

  /** How many batches lead from `start` to `target`. */
  function BatchCount(start: nat, target: nat): (n: nat) {
    if target <= start then 0 else (target - start + BLOCKS_PER_BATCH - 1) / BLOCKS_PER_BATCH
  }

  /** The batches up to the target tile the blocks after `start`: each block is in exactly one. */
  lemma {:induction false} BatchesTile(start: nat, target: nat, block: nat)
    ensures start < block <= target <==> exists id: nat :: 1 <= id <= BatchCount(start, target) && Covers(start, target, id, block)
    ensures forall a: nat, b: nat :: 1 <= a && 1 <= b && Covers(start, target, a, block) && Covers(start, target, b, block) ==> a == b
  {
    if start < block <= target {
      var id := (block - start - 1) / BLOCKS_PER_BATCH + 1;
      assert Covers(start, target, id, block);
    }
  }

  /** There is a next batch to request iff fewer than all have been issued, and the chain
      counts as complete iff as many batches are done as there are. */
  lemma {:induction false} TargetReached(start: nat, target: nat, n: nat)
    ensures FirstBlock(start, n + 1) <= target <==> n < BatchCount(start, target)
    ensures start + n * BLOCKS_PER_BATCH >= target <==> n >= BatchCount(start, target)
  {}

  ghost predicate AllDone(done: seq<nat>, start: nat, target: nat) {
    forall id: nat :: 1 <= id <= BatchCount(start, target) ==> id in done
  }

  /** A chain processed in order has reached its target iff every batch is done. */
  lemma {:induction false} TargetMeansAllDone(s: Schedule, start: nat, target: nat)
    requires InOrder(s)
    ensures s.toBeProcessed - 1 >= BatchCount(start, target) <==> AllDone(s.done, start, target)
  {
    var n := BatchCount(start, target);
    forall id: nat ensures id in s.done <==> 1 <= id < s.toBeProcessed {
      if 1 <= id < s.toBeProcessed { assert s.done[id - 1] == id; }
    }
    if s.toBeProcessed - 1 < n { assert n !in s.done; }
  }

  /** While no id past the last batch is issued, a lost batch is one that is never done. */
  lemma {:induction false} LostMeansNotAllDone(s: Schedule, start: nat, target: nat, id: nat)
    requires Partitioned(s) && s.toBeDownloaded <= BatchCount(start, target) + 1 && id in s.lost
    ensures !AllDone(s.done, start, target)
  {
    hide BatchCount;
    assert Places(s, id) <= 1;
    assert 1 <= id <= BatchCount(start, target) && id !in s.done;
  }

  function Reindexed(s: Schedule): (r: Schedule) {
    s.(completed := [], done := [], lost := {}, toBeDownloaded := 1, toBeProcessed := 1)
  }

  /** Nothing is in flight. */
  ghost predicate Quiescent(s: Schedule) {
    s.pending == map[] && s.processing.None?
  }

  /** Restarting the ids gives the schedule of a new chain exactly when nothing is in flight;
      otherwise not even the places of the ids are right. */
  lemma {:induction false} ReindexNeedsQuiescence(s: Schedule)
    ensures Reindexed(s) == FRESH <==> Quiescent(s)
    ensures Partitioned(s) ==> (Partitioned(Reindexed(s)) <==> Quiescent(s))
  {
    var s' := Reindexed(s);
    if !Partitioned(s) {
    } else if s.pending != map[] {
      var r :| r in s.pending;
      assert Pending(s', s.pending[r]) && Places(s', s.pending[r]) >= 1;
      assert Places(s', s.pending[r]) != Bit(1 <= s.pending[r] < s'.toBeDownloaded);
    } else if s.processing.Some? {
      var id := s.processing.value;
      assert Places(s', id) != Bit(1 <= id < s'.toBeDownloaded);
    } else {
      forall id: nat ensures Places(s', id) == 0 { assert !Pending(s', id); }
    }
  }
}
