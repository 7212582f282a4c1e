/** The range-sync chain: requests batches from idle peers, collects them out of order and
    sends them to the block processor one at a time. */
module RangeSync {
  import opened Basics
  import opened SyncSchedule
  import opened SyncBatches

  const INVALID_BATCH_LOOKUP_ATTEMPTS: nat := 3

  datatype ProcessingResult = KeepChain | RemoveChain

  /** The sync manager's channel to the network: request ids are never reused. */
  class Network {
    const delivers: nat -> bool
    var requestId: RequestId
    var downvoted: seq<PeerId>
    /** The range requests that went out. */
    var sent: seq<Sent>

    constructor (delivers: nat -> bool)
      ensures this.delivers == delivers && requestId == 0 && downvoted == [] && sent == []
    {
      this.delivers, requestId, downvoted, sent := delivers, 0, [], [];
    }

    method BlocksByRangeRequest(peer: PeerId, request: RangeRequest) returns (r: Option<RequestId>)
      modifies this
      ensures requestId == old(requestId) + 1 && downvoted == old(downvoted)
      ensures r == if delivers(old(requestId)) then Some(old(requestId)) else None
      ensures sent == old(sent) + if r.Some? then [Sent(r.value, peer, request)] else []
    {
      r := None;
      if delivers(requestId) {
        sent := sent + [Sent(requestId, peer, request)];
        r := Some(requestId);
      }
      requestId := requestId + 1;
    }

    /** Downvoting sends a goodbye, which takes a request id too. */
    method DownvotePeer(peer: PeerId)
      modifies this
      ensures requestId == old(requestId) + 1 && downvoted == old(downvoted) + [peer] && sent == old(sent)
    {
      requestId := requestId + 1;
      downvoted := downvoted + [peer];
    }
  }

  function Ids(batches: seq<Batch>): (r: seq<nat>)
    ensures |r| == |batches| && forall i :: 0 <= i < |batches| ==> r[i] == batches[i].id
  {
    seq(|batches|, i requires 0 <= i < |batches| => batches[i].id)
  }

  function PendingIds(batches: map<RequestId, Batch>): (m: map<RequestId, nat>) {
    map r | r in batches :: batches[r].id
  }

  predicate HasRange(b: Batch, start: nat, target: nat) {
    b.id >= 1 && b.startNumber == FirstBlock(start, b.id) && b.endNumber == EndBlock(start, target, b.id)
  }

  /** The check applied to a downloaded batch: note that it accepts a last block at `endNumber`. */
  predicate InRange(b: Batch) {
    var n := |b.downloadedBlocks|;
    n == 0 || (b.startNumber <= b.downloadedBlocks[0].height && b.downloadedBlocks[n - 1].height <= b.endNumber)
  }

  /** A batch is one of those up to the target, covers the blocks its id stands for and was
      never downloaded again: nothing in the code raises the retry counter or keeps an earlier
      hash. */
  predicate Proper(b: Batch, start: nat, target: nat) {
    HasRange(b, start, target) && b.id <= BatchCount(start, target) && b.reprocessRetries == 0 && b.originalHash.None?
  }

  /** The request asks for exactly the blocks that the batch covers. */
  ghost predicate AsksFor(request: RangeRequest, start: nat, target: nat, root: int, id: nat) {
    && request.headBlockRoot == root && request.step == 1
    && forall block: nat :: request.startSlot <= block < request.startSlot + request.count <==> Covers(start, target, id, block)
  }

  lemma {:induction false} RequestAsks(b: Batch, start: nat, target: nat)
    requires Proper(b, start, target)
    ensures b.startNumber <= b.endNumber && AsksFor(ToBlocksByRangeRequest(b), start, target, b.headRoot, b.id)
  {
    TargetReached(start, target, b.id - 1);
  }

  /** The log of requests grew by one entry for each of the asked batches, in order, and each
      asks for the blocks of its batch. */
  ghost predicate Logged(before: seq<Sent>, after: seq<Sent>, asked: seq<(nat, nat)>, start: nat, target: nat, root: int) {
    && before <= after && |after| == |before| + |asked|
    && forall k :: 0 <= k < |asked| ==>
         && after[|before| + k].id == asked[k].0 && 1 <= asked[k].1 <= BatchCount(start, target)
         && AsksFor(after[|before| + k].request, start, target, root, asked[k].1)
  }

  lemma {:induction false} LoggedConcat(a: seq<Sent>, b: seq<Sent>, c: seq<Sent>, xs: seq<(nat, nat)>, ys: seq<(nat, nat)>,
                                        start: nat, target: nat, root: int)
    requires Logged(a, b, xs, start, target, root) && Logged(b, c, ys, start, target, root)
    ensures Logged(a, c, xs + ys, start, target, root)
  {
    hide AsksFor, BatchCount;
    forall k | 0 <= k < |xs + ys|
      ensures && c[|a| + k].id == (xs + ys)[k].0 && 1 <= (xs + ys)[k].1 <= BatchCount(start, target)
              && AsksFor(c[|a| + k].request, start, target, root, (xs + ys)[k].1)
    {
      if k < |xs| { assert c[|a| + k] == b[|a| + k]; } else { assert c[|a| + k] == c[|b| + (k - |xs|)]; }
    }
  }

  /** Request `r` is in the log: it went to the batch's peer and asks for the batch's blocks. */
  ghost predicate Told(sent: seq<Sent>, r: RequestId, b: Batch, start: nat, target: nat, root: int) {
    exists k :: 0 <= k < |sent| && sent[k].id == r && sent[k].peer == b.currentPeer && AsksFor(sent[k].request, start, target, root, b.id)
  }

  ghost predicate AllTold(batches: map<RequestId, Batch>, sent: seq<Sent>, start: nat, target: nat, root: int) {
    forall r :: r in batches ==> Told(sent, r, batches[r], start, target, root)
  }

  lemma {:induction false} ToldLater(batches: map<RequestId, Batch>, sent: seq<Sent>, more: seq<Sent>, start: nat, target: nat, root: int)
    requires AllTold(batches, sent, start, target, root)
    ensures AllTold(batches, sent + more, start, target, root)
  {
    hide AsksFor;
    forall r | r in batches ensures Told(sent + more, r, batches[r], start, target, root) {
      var k :| 0 <= k < |sent| && sent[k].id == r && sent[k].peer == batches[r].currentPeer
               && AsksFor(sent[k].request, start, target, root, batches[r].id);
      assert (sent + more)[k] == sent[k];
    }
  }

  lemma {:induction false} ToldOneMore(batches: map<RequestId, Batch>, sent: seq<Sent>, r: RequestId, b: Batch, request: RangeRequest,
                                       start: nat, target: nat, root: int)
    requires AllTold(batches, sent, start, target, root) && AsksFor(request, start, target, root, b.id)
    ensures AllTold(batches[r := b], sent + [Sent(r, b.currentPeer, request)], start, target, root)
  {
    hide AsksFor;
    ToldLater(batches, sent, [Sent(r, b.currentPeer, request)], start, target, root);
    assert (sent + [Sent(r, b.currentPeer, request)])[|sent|] == Sent(r, b.currentPeer, request);
  }

  /** Dropping a request, or adding blocks to its batch, leaves the others in the log. */
  lemma {:induction false} ToldFewer(batches: map<RequestId, Batch>, sent: seq<Sent>, r: RequestId, blocks: seq<Block>,
                                     start: nat, target: nat, root: int)
    requires AllTold(batches, sent, start, target, root)
    ensures AllTold(batches - {r}, sent, start, target, root)
    ensures r in batches ==> AllTold(batches[r := batches[r].(downloadedBlocks := blocks)], sent, start, target, root)
  {
    hide AsksFor;
    if r in batches { assert Told(sent, r, batches[r], start, target, root); }
  }

  /** The completed batches and what becomes of them when the first one is started. */
  ghost predicate Handed(before: seq<Batch>, cur: Option<Batch>, jobs: seq<Job>, started: bool,
                         completed: seq<Batch>, current: Option<Batch>, jobs': seq<Job>) {
    if started then
      && |before| > 0 && completed == before[1..] && current == Some(before[0].(downloadedBlocks := []))
      && jobs' == jobs + [Job(before[0].id, before[0].downloadedBlocks)]
    else completed == before && current == cur && jobs' == jobs
  }

  /** The blocks of a job passed the range check of their batch. */
  ghost predicate JobOk(job: Job, start: nat, target: nat) {
    && 1 <= job.batchId <= BatchCount(start, target)
    && (job.blocks == []
        || (FirstBlock(start, job.batchId) <= job.blocks[0].height
            && job.blocks[|job.blocks| - 1].height <= EndBlock(start, target, job.batchId)))
  }

  ghost predicate JobsOk(jobs: seq<Job>, completed: seq<Batch>, start: nat, target: nat) {
    && (forall i :: 0 <= i < |jobs| ==> JobOk(jobs[i], start, target))
    && (forall i :: 0 <= i < |completed| ==> InRange(completed[i]))
  }

  ghost predicate AllProper(batches: seq<Batch>, start: nat, target: nat) {
    forall i :: 0 <= i < |batches| ==> Proper(batches[i], start, target)
  }

  /** Another peer delivered the batch anew and with different blocks. */
  ghost predicate Corrected(hashOf: seq<Block> -> int, b: Batch) {
    b.originalHash.Some? && b.originalHash.value != hashOf(b.downloadedBlocks) && b.currentPeer != b.originalPeer
  }

  ghost predicate Blames(hashOf: seq<Block> -> int, batches: seq<Batch>, p: PeerId) {
    exists b :: b in batches && Corrected(hashOf, b) && b.originalPeer == p
  }

  lemma {:induction false} BlamesMeans(hashOf: seq<Block> -> int, batches: seq<Batch>)
    ensures forall p :: Blames(hashOf, batches, p) <==>
                          exists b :: b in batches && b.originalPeer == p && b.currentPeer != p
                                      && b.originalHash.Some? && b.originalHash.value != hashOf(b.downloadedBlocks)
  {}

  lemma {:induction false} NobodyBlamed(hashOf: seq<Block> -> int)
    ensures forall p :: !Blames(hashOf, [], p)
  {}

  lemma {:induction false} BlamesAppend(hashOf: seq<Block> -> int, batches: seq<Batch>, b: Batch)
    ensures forall p :: Blames(hashOf, batches + [b], p) <==> Blames(hashOf, batches, p) || (Corrected(hashOf, b) && b.originalPeer == p)
  {
    forall p ensures Blames(hashOf, batches + [b], p) <==> Blames(hashOf, batches, p) || (Corrected(hashOf, b) && b.originalPeer == p) {
      if Blames(hashOf, batches, p) {
        var c :| c in batches && Corrected(hashOf, c) && c.originalPeer == p;
        assert c in batches + [b];
      }
      if Corrected(hashOf, b) && b.originalPeer == p { assert b in batches + [b]; }
    }
  }

  /** The requests in flight are for proper batches, from known peers, one each, and their
      ids are in the past. */
  ghost predicate RequestsOk(batches: map<RequestId, Batch>, pool: set<PeerId>, requestId: RequestId, start: nat, target: nat) {
    && OnePerPeer(batches)
    && (forall r :: r in batches ==> r < requestId && Proper(batches[r], start, target) && batches[r].currentPeer in pool)
  }

  ghost predicate Busy(batches: map<RequestId, Batch>, p: PeerId) {
    exists r :: Assigned(batches, r, p)
  }

  /** The peers without a request in flight. */
  ghost function IdlePeers(batches: map<RequestId, Batch>, pool: set<PeerId>): (idle: set<PeerId>) {
    set p | p in pool && !Busy(batches, p)
  }

  /** Requests in flight stay as they are, and new ones have no blocks yet. */
  ghost predicate Extends(before: map<RequestId, Batch>, after: map<RequestId, Batch>) {
    && (forall r :: r in before ==> r in after && after[r] == before[r])
    && (forall r :: r in after && r !in before ==> after[r].downloadedBlocks == [])
  }

  lemma {:induction false} ExtendsTransitive(a: map<RequestId, Batch>, b: map<RequestId, Batch>, c: map<RequestId, Batch>)
    requires Extends(a, b) && Extends(b, c)
    ensures Extends(a, c)
  {}

  /** A request to an idle peer keeps the table in order and that peer busy. */
  lemma {:induction false} RequestTracked(batches: map<RequestId, Batch>, pool: set<PeerId>, requestId: RequestId,
                                          start: nat, target: nat, r: RequestId, b: Batch)
    requires RequestsOk(batches, pool, requestId, start, target) && r !in batches && r < requestId
    requires Proper(b, start, target) && b.currentPeer in IdlePeers(batches, pool) && b.downloadedBlocks == []
    ensures RequestsOk(batches[r := b], pool, requestId, start, target) && Extends(batches, batches[r := b])
    ensures IdlePeers(batches[r := b], pool) == IdlePeers(batches, pool) - {b.currentPeer}
    ensures PendingIds(batches[r := b]) == PendingIds(batches)[r := b.id]
  {
    hide Proper;
    var batches' := batches[r := b];
    forall k | k in batches ensures batches[k].currentPeer != b.currentPeer { assert !Assigned(batches, k, b.currentPeer); }
    forall p ensures Busy(batches', p) <==> Busy(batches, p) || p == b.currentPeer {
      if Busy(batches, p) { var k :| Assigned(batches, k, p); assert Assigned(batches', k, p); }
      if p == b.currentPeer { assert Assigned(batches', r, p); }
      if Busy(batches', p) && p != b.currentPeer { var k :| Assigned(batches', k, p); assert Assigned(batches, k, p); }
    }
  }

  lemma {:induction false} BlockAdded(m: map<RequestId, Batch>, pool: set<PeerId>, id: RequestId, start: nat, target: nat,
                                      r: RequestId, block: Block)
    requires RequestsOk(m, pool, id, start, target) && r in m
    ensures var m' := m[r := m[r].(downloadedBlocks := m[r].downloadedBlocks + [block])];
            && RequestsOk(m', pool, id, start, target) && Extends(m - {r}, m' - {r}) && PendingIds(m') == PendingIds(m)
  {
    assert Proper(m[r], start, target);
  }

  lemma {:induction false} RequestGone(m: map<RequestId, Batch>, pool: set<PeerId>, id: RequestId, start: nat, target: nat, r: RequestId)
    requires RequestsOk(m, pool, id, start, target)
    ensures RequestsOk(m - {r}, pool, id, start, target) && Extends(m - {r}, m - {r})
    ensures PendingIds(m - {r}) == PendingIds(m) - {r} && (r in m ==> Proper(m[r], start, target) && r in PendingIds(m) && PendingIds(m)[r] == m[r].id)
  {}

  lemma {:induction false} ExtendsWithout(m: map<RequestId, Batch>, m': map<RequestId, Batch>, r: RequestId)
    requires Extends(m, m') && r !in m
    ensures Extends(m, m' - {r})
  {}

  lemma {:induction false} IdleIsNotBusy(batches: map<RequestId, Batch>, p: PeerId)
    ensures !Busy(batches, p) <==> forall r :: r in batches ==> batches[r].currentPeer != p
  {
    forall r | r in batches && batches[r].currentPeer == p ensures Busy(batches, p) { assert Assigned(batches, r, p); }
  }

  /** A batch ends where the next one starts, or after the target. */
  lemma {:induction false} EndIsNextStart(start: nat, target: nat, b: Batch)
    requires HasRange(b, start, target) && b.startNumber <= target
    ensures b.endNumber <= target ==> Covers(start, target, b.id + 1, b.endNumber) && !Covers(start, target, b.id, b.endNumber)
    ensures b.endNumber > target ==> forall id: nat :: id >= 1 ==> !Covers(start, target, id, b.endNumber)
  {}

  /** The check on a downloaded batch lets a last block through that is not the batch's own
      exactly when that block is at the exclusive end, or before the first one asked for. */
  lemma {:induction false} AcceptedLastBlock(start: nat, target: nat, b: Batch)
    requires HasRange(b, start, target) && InRange(b) && |b.downloadedBlocks| > 0
    ensures var last := b.downloadedBlocks[|b.downloadedBlocks| - 1].height;
            Covers(start, target, b.id, last) <==> b.startNumber <= last != b.endNumber
  {}

  /** An accepted batch of blocks 1 to 6, of which the last belongs to the next batch. */
  lemma {:induction false} AcceptsForeignBlock()
    ensures var b := Batch(1, 1, 1 + BLOCKS_PER_BATCH, 0, 0, 0, 0, None, [Block(1), Block(1 + BLOCKS_PER_BATCH)]);
            && HasRange(b, 0, 2 * BLOCKS_PER_BATCH) && InRange(b)
            && Covers(0, 2 * BLOCKS_PER_BATCH, 2, 1 + BLOCKS_PER_BATCH) && !Covers(0, 2 * BLOCKS_PER_BATCH, 1, 1 + BLOCKS_PER_BATCH)
  {}

  /** Whether the last block of a batch, if any, is the last one it asked for. */
  predicate Full(b: Batch) {
    var n := |b.downloadedBlocks|;
    n > 0 && b.downloadedBlocks[n - 1].height == if b.endNumber > 0 then b.endNumber - 1 else 0
  }

  /** A full batch ends with the last block it covers. */
  lemma {:induction false} FullEndsRight(start: nat, target: nat, b: Batch)
    requires Proper(b, start, target)
    ensures var n := |b.downloadedBlocks|;
            Full(b) <==>
              && n > 0 && Covers(start, target, b.id, b.downloadedBlocks[n - 1].height)
              && forall block: nat :: Covers(start, target, b.id, block) ==> block <= b.downloadedBlocks[n - 1].height
  {
    TargetReached(start, target, b.id - 1);
    assert Covers(start, target, b.id, b.endNumber - 1);
  }

  class SyncingChain {
    const startNumber: nat
    const targetHead: nat
    const targetRoot: int
    const hashOf: seq<Block> -> int
    const pending: PendingBatches
    var completed: seq<Batch>
    var processed: seq<Batch>
    var peerPool: set<PeerId>
    var toBeDownloaded: nat
    var toBeProcessed: nat
    var syncing: bool
    var current: Option<Batch>
    /** What the block processor was given, in order. */
    var jobs: seq<Job>
    ghost var done: seq<nat>
    ghost var lost: set<nat>

    ghost function View(): (s: Schedule)
      reads this, pending
    {
      Schedule(PendingIds(pending.batches), Ids(completed), if current.Some? then Some(current.value.id) else None,
               done, lost, toBeDownloaded, toBeProcessed)
    }

    /** The batches that have arrived are proper and in range, and so was what was processed. */
    ghost predicate BatchesOk()
      reads this
    {
      && AllProper(completed, startNumber, targetHead) && AllProper(processed, startNumber, targetHead)
      && (current.Some? ==> Proper(current.value, startNumber, targetHead)) && JobsOk(jobs, completed, startNumber, targetHead)
    }

    /** The chain went from one schedule to another by the given events, and the network's log
        grew by exactly the requests for the batches these issue. */
    ghost predicate Acts(s: Schedule, events: seq<Event>, s': Schedule, log: seq<Sent>, log': seq<Sent>) {
      RunOf(s, events, s') && Logged(log, log', Requests(s, events), startNumber, targetHead, targetRoot)
    }

    lemma {:induction false} ActsNot(s: Schedule, log: seq<Sent>)
      ensures Acts(s, [], s, log, log)
    {}

    /** Events that issue nothing leave the log alone. */
    lemma {:induction false} ActsQuietly(s: Schedule, events: seq<Event>, s': Schedule, log: seq<Sent>)
      requires RunOf(s, events, s') && forall i :: 0 <= i < |events| ==> !events[i].Issue?
      ensures Acts(s, events, s', log, log)
    {
      NoRequests(s, events);
    }

    lemma {:induction false} ActsOnce(s: Schedule, e: Event, s': Schedule, log: seq<Sent>, log': seq<Sent>)
      requires Enabled(s, e) && s' == Next(s, e)
      requires if e.Issue? && e.sent.Some? then
                 && |log'| > 0 && log'[..|log'| - 1] == log && log'[|log'| - 1].id == e.sent.value
                 && 1 <= s.toBeDownloaded <= BatchCount(startNumber, targetHead)
                 && AsksFor(log'[|log'| - 1].request, startNumber, targetHead, targetRoot, s.toBeDownloaded)
               else log' == log
      ensures Acts(s, [e], s', log, log')
    {
      hide AsksFor, BatchCount, Next, Enabled;
      SingleStep(s, e, s');
      assert [e][1..] == [] && Requests(s', []) == [];
      assert Requests(s, [e]) == if e.Issue? && e.sent.Some? then [(e.sent.value, s.toBeDownloaded)] else [];
    }

    lemma {:induction false} ActsConcat(a: Schedule, xs: seq<Event>, b: Schedule, ys: seq<Event>, c: Schedule,
                                        log: seq<Sent>, middle: seq<Sent>, log': seq<Sent>)
      requires Acts(a, xs, b, log, middle) && Acts(b, ys, c, middle, log')
      ensures Acts(a, xs + ys, c, log, log')
    {
      hide Logged, RunOf;
      RunConcat(a, xs, b, ys, c);
      RequestsConcat(a, xs, b, ys);
      LoggedConcat(log, middle, log', Requests(a, xs), Requests(b, ys), startNumber, targetHead, targetRoot);
    }

    /** The request table is indexed by peer and in order, every batch anywhere covers the
        blocks its id stands for, no id past the last batch is issued, and what is pending was
        asked for. */
    ghost predicate Valid(network: Network)
      reads this, pending, network
    {
      && pending.Valid() && 1 <= toBeDownloaded <= BatchCount(startNumber, targetHead) + 1 && BatchesOk()
      && RequestsOk(pending.batches, peerPool, network.requestId, startNumber, targetHead)
      && AllTold(pending.batches, network.sent, startNumber, targetHead, targetRoot)
    }

    ghost function Idle(): (idle: set<PeerId>)
      reads this, pending
    {
      IdlePeers(pending.batches, peerPool)
    }

    /** There is room for another batch, and blocks left to ask for. */
    ghost predicate MayRequest()
      reads this, pending
    {
      |completed| + |pending.batches| <= BATCH_BUFFER_SIZE && FirstBlock(startNumber, toBeDownloaded) <= targetHead
    }

    constructor (startNumber: nat, targetHead: nat, targetRoot: int, hashOf: seq<Block> -> int, network: Network)
      ensures Valid(network) && View() == FRESH && !syncing && peerPool == {} && fresh(pending)
      ensures this.startNumber == startNumber && this.targetHead == targetHead && this.targetRoot == targetRoot && jobs == []
    {
      this.startNumber, this.targetHead, this.targetRoot, this.hashOf := startNumber, targetHead, targetRoot, hashOf;
      pending := new PendingBatches();
      completed, processed, peerPool, current, jobs := [], [], {}, None, [];
      toBeDownloaded, toBeProcessed, syncing := 1, 1, false;
      done, lost := [], {};
      new;
      assert PendingIds(pending.batches) == map[];
      assert Ids([]) == [];
    }

    function CurrentProcessedSlot(): (n: nat)
      reads this
    {
      startNumber + (if toBeProcessed >= 1 then toBeProcessed - 1 else 0) * BLOCKS_PER_BATCH
    }

    /** Some idle peer of the pool, if there is one. */
    method GetNextPeer() returns (r: Option<PeerId>)
      requires pending.Valid()
      ensures r.Some? ==> r.value in Idle()
      ensures r.None? ==> Idle() == {}
    {
      var peers := peerPool;
      while peers != {}
        invariant peers <= peerPool && forall p :: p in peerPool && p !in peers ==> Busy(pending.batches, p)
        decreases peers
      {
        var p :| p in peers;
        IdleIsNotBusy(pending.batches, p);
        if pending.PeerIsIdle(p) { return Some(p); }
        peers := peers - {p};
      }
      assert forall p :: p in peerPool ==> Busy(pending.batches, p);
      r := None;
    }

    /** The next batch to request, cut off at the target; none while the buffer is full or
        when all blocks up to the target have been requested. */
    method GetNextBatch(peer: PeerId) returns (r: Option<Batch>)
      requires toBeDownloaded >= 1 && BatchesOk()
      modifies this`toBeDownloaded
      ensures r.Some? <==> old(MayRequest())
      ensures r.None? ==> toBeDownloaded == old(toBeDownloaded)
      ensures r.Some? ==>
                && r.value.id == old(toBeDownloaded) && Proper(r.value, startNumber, targetHead)
                && r.value.currentPeer == peer && r.value.originalPeer == peer && r.value.downloadedBlocks == []
                && r.value.headRoot == targetRoot
                && toBeDownloaded == old(NextDownload(View())) <= BatchCount(startNumber, targetHead) + 1
    {
      hide BatchCount;
      TargetReached(startNumber, targetHead, toBeDownloaded - 1);
      if |completed| + |pending.batches| > BATCH_BUFFER_SIZE { return None; }
      var first := startNumber + (toBeDownloaded - 1) * BLOCKS_PER_BATCH + 1;
      if first > targetHead { return None; }
      var end := if first + BLOCKS_PER_BATCH < targetHead + 1 then first + BLOCKS_PER_BATCH else targetHead + 1;
      var id := toBeDownloaded;
      var maxCompleted := if |completed| > 0 then completed[|completed| - 1].id else 0;
      toBeDownloaded := if toBeDownloaded + 1 > maxCompleted + 1 then toBeDownloaded + 1 else maxCompleted + 1;
      r := Some(Batch(id, first, end, targetRoot, peer, peer, 0, None, []));
    }

    /** Requests the next batch from an idle peer, if there are both. */
    method SendRangeRequest(network: Network) returns (sent: bool, ghost events: seq<Event>)
      requires Valid(network)
      modifies this`toBeDownloaded, this`lost, pending, network
      ensures Valid(network) && Acts(old(View()), events, View(), old(network.sent), network.sent)
      ensures Extends(old(pending.batches), pending.batches)
      ensures sent <==> old(Idle()) != {} && old(MayRequest())
      ensures !sent ==> events == [] && View() == old(View()) && pending.batches == old(pending.batches) && network.requestId == old(network.requestId) && network.sent == old(network.sent)
      ensures network.downvoted == old(network.downvoted)
      ensures sent ==> toBeDownloaded > old(toBeDownloaded) && network.requestId == old(network.requestId) + 1
      ensures sent && network.delivers(old(network.requestId)) ==>
                events == [Issue(Some(old(network.requestId)))] && exists p :: p in old(Idle()) && Idle() == old(Idle()) - {p}
      ensures sent && !network.delivers(old(network.requestId)) ==> events == [Issue(None)] && Idle() == old(Idle())
    {
      hide RunOf, RequestsOk, Proper, AllProper, IdlePeers, Extends, Inverse, BatchCount, Acts, AllTold, JobsOk, AsksFor;
      sent, events := false, [];
      ghost var before, m := View(), pending.batches;
      ActsNot(before, network.sent);
      assert |PendingIds(m)| == |m| by { assert PendingIds(m).Keys == m.Keys; }
      ExtendsSame(m);
      RequestsLater(m, peerPool, network.requestId, startNumber, targetHead);
      var peer := GetNextPeer();
      if peer.None? { return; }
      var batch := GetNextBatch(peer.value);
      if batch.None? { return; }
      RequestAsks(batch.value, startNumber, targetHead);
      ProperId(batch.value, startNumber, targetHead);
      var request := ToBlocksByRangeRequest(batch.value);
      var r := network.BlocksByRangeRequest(batch.value.currentPeer, request);
      events := [Issue(r)];
      if r.Some? {
        RequestTracked(m, peerPool, network.requestId, startNumber, targetHead, r.value, batch.value);
        ToldOneMore(m, old(network.sent), r.value, batch.value, request, startNumber, targetHead, targetRoot);
        var _ := pending.Insert(r.value, batch.value);
      } else {
        lost := lost + {batch.value.id};
      }
      sent := true;
      ActsOnce(before, Issue(r), View(), old(network.sent), network.sent);
    }

    /** Requests batches until peers, buffer or blocks are exhausted; failed sends do not
        keep it from ending.  With one idle peer one batch is requested. */
    method RequestBatches(network: Network) returns (ghost events: seq<Event>)
      requires Valid(network)
      modifies this`toBeDownloaded, this`lost, pending, network
      ensures Valid(network) && Acts(old(View()), events, View(), old(network.sent), network.sent)
      ensures Extends(old(pending.batches), pending.batches)
      ensures forall i :: 0 <= i < |events| ==> events[i].Issue?
      ensures network.downvoted == old(network.downvoted) && (syncing ==> Idle() == {} || !MayRequest())
      ensures !syncing || old(Idle()) == {} || !old(MayRequest()) ==>
                events == [] && View() == old(View()) && Idle() == old(Idle()) && network.requestId == old(network.requestId)
      ensures syncing && |old(Idle())| == 1 && old(MayRequest()) && network.delivers(old(network.requestId)) ==>
                events == [Issue(Some(old(network.requestId)))] && Idle() == {} && network.requestId == old(network.requestId) + 1
    {
      hide RunOf, RequestsOk, BatchesOk, IdlePeers, Extends, PendingIds, Acts, AllTold, BatchCount, Inverse, Ids;
      events := [];
      ActsNot(View(), network.sent);
      assert Extends(pending.batches, pending.batches) by { ExtendsSame(pending.batches); }
      if !syncing { return; }
      var more := true;
      ghost var single := |Idle()| == 1 && MayRequest() && network.delivers(network.requestId);
      ghost var first := network.requestId;
      while more
        invariant Valid(network) && Acts(old(View()), events, View(), old(network.sent), network.sent)
        invariant Extends(old(pending.batches), pending.batches)
        invariant forall i :: 0 <= i < |events| ==> events[i].Issue?
        invariant events == [] ==> View() == old(View()) && pending.batches == old(pending.batches) && network.requestId == first
        invariant network.downvoted == old(network.downvoted)
        invariant events == [] && old(Idle()) != {} && old(MayRequest()) ==> more
        invariant events != [] ==> old(Idle()) != {} && old(MayRequest())
        invariant single && events != [] ==> events == [Issue(Some(first))] && Idle() == {} && network.requestId == first + 1
        invariant !more ==> Idle() == {} || !MayRequest()
        decreases if !more then 0 else if FirstBlock(startNumber, toBeDownloaded) > targetHead then 1
                  else targetHead - FirstBlock(startNumber, toBeDownloaded) + 2
      {
        ghost var es;
        ghost var middle, m, idle, log := View(), pending.batches, Idle(), network.sent;
        more, es := SendRangeRequest(network);
        ActsConcat(old(View()), events, middle, es, View(), old(network.sent), log, network.sent);
        ExtendsTransitive(old(pending.batches), m, pending.batches);
        if single && events == [] { OnlyOne(idle); }
        events := events + es;
      }
    }

    /** Starts the next batch if the chain is syncing, nothing is being processed and that
        batch is the first completed one. */
    method ProcessCompletedBatches() returns (ghost events: seq<Event>)
      requires BatchesOk()
      modifies this`completed, this`current, this`jobs
      ensures BatchesOk() && RunOf(old(View()), events, View())
      ensures Handed(old(completed), old(current), old(jobs), Start in events, completed, current, jobs)
      ensures events == if syncing && Enabled(old(View()), Start) then [Start] else []
    {
      events := [];
      if !syncing || current.Some? { return; }
      if |completed| > 0 && completed[0].id == toBeProcessed {
        ghost var before := View();
        var batch := completed[0];
        completed := completed[1..];
        current := Some(batch.(downloadedBlocks := []));
        jobs := jobs + [Job(batch.id, batch.downloadedBlocks)];
        events := [Start];
        assert Ids(completed) == before.completed[1..];
        assert JobOk(Job(batch.id, batch.downloadedBlocks), startNumber, targetHead) by { JobOfBatch(batch, startNumber, targetHead); }
        SingleStep(before, Start, View());
      }
    }

    /** Everything up to the target has been requested. */
    ghost predicate Exhausted()
      reads this
    {
      FirstBlock(startNumber, toBeDownloaded) > targetHead
    }

    /** A batch whose request `r` has just been taken out of the pending table is complete:
        it is kept if its blocks are in range, otherwise its peer is downvoted and the batch
        dropped. */
    method HandleCompletedBatch(network: Network, batch: Batch, ghost before: Schedule, ghost r: RequestId)
      returns (ghost events: seq<Event>)
      requires Valid(network) && Proper(batch, startNumber, targetHead)
      requires r in before.pending && before.pending[r] == batch.id && View() == before.(pending := before.pending - {r})
      modifies this`completed, this`toBeDownloaded, this`toBeProcessed, this`lost, this`current, this`jobs, pending, network
      ensures Valid(network) && Acts(before, events, View(), old(network.sent), network.sent)
      ensures Extends(old(pending.batches), pending.batches)
      ensures var arrived := if InRange(batch) then Insert(old(completed), Slot(Ids(old(completed)), batch.id), batch) else old(completed);
              Handed(arrived, old(current), old(jobs), Start in events, completed, current, jobs)
      ensures !InRange(batch) ==> events == [Reject(r)] && network.downvoted == old(network.downvoted) + [batch.currentPeer]
      ensures InRange(batch) ==> events != [] && events[0] == Arrive(r) && network.downvoted == old(network.downvoted)
      ensures forall i :: 1 <= i < |events| ==> events[i].Issue? || events[i].Start?
      ensures InRange(batch) && old(Exhausted()) ==> events == [Arrive(r)] + Startable(syncing, Next(before, Arrive(r)))
    {
      hide RunOf, RequestsOk, Proper, Inverse, Extends, Acts, AllTold, BatchCount, Handed;
      var blocks := batch.downloadedBlocks;
      RequestsLater(pending.batches, peerPool, network.requestId, startNumber, targetHead);
      assert Extends(pending.batches, pending.batches) by { ExtendsSame(pending.batches); }
      if |blocks| > 0 && (batch.startNumber > blocks[0].height || batch.endNumber < blocks[|blocks| - 1].height) {
        network.DownvotePeer(batch.currentPeer);
        toBeProcessed := batch.id;
        lost := lost + {batch.id};
        events := [Reject(r)];
        ActsOnce(before, Reject(r), View(), old(network.sent), network.sent);
        NotHanded(completed, current, jobs);
        return;
      }
      var index := Slot(Ids(completed), batch.id);
      assert Insert(completed, index, batch) == completed[..index] + [batch] + completed[index..];
      completed := Insert(completed, index, batch);
      assert Ids(completed) == Insert(before.completed, index, batch.id);
      events := [Arrive(r)];
      ActsOnce(before, Arrive(r), View(), network.sent, network.sent);
      ghost var more := Continue(network, before, events, old(network.sent));
      events := events + more;
    }

    /** A block of a batch, or the end of its stream, has arrived. */
    method OnBlockResponse(network: Network, requestId: RequestId, block: Option<Block>)
      returns (found: bool, ghost events: seq<Event>)
      requires Valid(network)
      modifies this`completed, this`toBeDownloaded, this`toBeProcessed, this`lost, this`current, this`jobs, pending, network
      ensures Valid(network) && Acts(old(View()), events, View(), old(network.sent), network.sent)
      ensures found <==> requestId in old(pending.batches)
      ensures Extends(old(pending.batches) - {requestId}, pending.batches - {requestId})
      ensures !found || block.Some? ==> events == []
      ensures found && block.Some? ==>
                requestId in pending.batches &&
                pending.batches[requestId].downloadedBlocks == old(pending.batches)[requestId].downloadedBlocks + [block.value]
      ensures found && block.None? ==>
                events != [] && events[0] == if InRange(old(pending.batches)[requestId]) then Arrive(requestId) else Reject(requestId)
      ensures var complete := found && block.None? && InRange(old(pending.batches)[requestId]);
              var batch := if complete then [old(pending.batches)[requestId]] else [];
              var index := if complete then Slot(Ids(old(completed)), batch[0].id) else 0;
              Handed(old(completed)[..index] + batch + old(completed)[index..], old(current), old(jobs), Start in events, completed, current, jobs)
      ensures found && block.None? && !InRange(old(pending.batches)[requestId]) ==> events == [Reject(requestId)]
      ensures found && block.None? && InRange(old(pending.batches)[requestId]) && old(Exhausted()) ==>
                events == [Arrive(requestId)] + Startable(syncing, Next(old(View()), Arrive(requestId)))
      ensures forall i :: 1 <= i < |events| ==> events[i].Issue? || events[i].Start?
    {
      hide RunOf, Proper, BatchesOk, Inverse, InRange, Next, Startable, RequestsOk, PendingIds, Extends, Acts, AllTold, Handed, BatchCount;
      ghost var before, m := View(), pending.batches;
      events := [];
      ActsNot(before, network.sent);
      NotHanded(completed, current, jobs);
      assert completed[..0] + [] + completed[0..] == completed;
      ToldFewer(m, network.sent, requestId, if requestId in m && block.Some? then m[requestId].downloadedBlocks + [block.value] else [],
                startNumber, targetHead, targetRoot);
      RequestGone(m, peerPool, network.requestId, startNumber, targetHead, requestId);
      if block.Some? {
        if requestId in m { BlockAdded(m, peerPool, network.requestId, startNumber, targetHead, requestId, block.value); }
        found := pending.AddBlock(requestId, block.value);
        return;
      }
      var batch := pending.Remove(requestId);
      if batch.None? {
        assert pending.batches == m;
        return false, [];
      }
      events := HandleCompletedBatch(network, batch.value, before, requestId);
      ExtendsWithout(m - {requestId}, pending.batches, requestId);
      found := true;
    }

    /** Downvotes exactly the first senders of batches that another peer had to correct;
        nobody, since no batch is ever downloaded again. */
    method ValidateProcessed(network: Network)
      modifies this`processed, network
      ensures processed == [] && network.requestId >= old(network.requestId) && network.sent == old(network.sent)
      ensures old(network.downvoted) <= network.downvoted
      ensures forall p :: p in network.downvoted[|old(network.downvoted)|..] <==>
                            exists b :: b in old(processed) && b.originalPeer == p && b.currentPeer != p
                                        && b.originalHash.Some? && b.originalHash.value != hashOf(b.downloadedBlocks)
      ensures AllProper(old(processed), startNumber, targetHead) ==>
                network.downvoted == old(network.downvoted) && network.requestId == old(network.requestId)
    {
      var n := 0;
      ghost var all, d := processed, |network.downvoted|;
      hide Blames;
      assert forall p :: !Blames(hashOf, all[..0], p) by { NobodyBlamed(hashOf); }
      while |processed| > 0
        invariant 0 <= n <= |all| && processed == all[n..]
        invariant network.requestId >= old(network.requestId) && old(network.downvoted) <= network.downvoted
        invariant network.sent == old(network.sent)
        invariant forall p :: p in network.downvoted[d..] <==> Blames(hashOf, all[..n], p)
        invariant AllProper(all, startNumber, targetHead) ==>
                    network.downvoted == old(network.downvoted) && network.requestId == old(network.requestId)
        decreases |processed|
      {
        var b := processed[0];
        assert all[..n + 1] == all[..n] + [b];
        assert b == all[n];
        BlamesAppend(hashOf, all[..n], b);
        ghost var told := network.downvoted;
        processed := processed[1..];
        n := n + 1;
        if b.originalHash.Some? && b.originalHash.value != hashOf(b.downloadedBlocks) && b.currentPeer != b.originalPeer {
          network.DownvotePeer(b.originalPeer);
          assert network.downvoted[d..] == told[d..] + [b.originalPeer];
        }
      }
      assert all[..n] == all;
      BlamesMeans(hashOf, all);
    }

    /** The block processor reports on a batch. */
    method OnBatchProcessResult(network: Network, batchId: nat, blocks: Option<seq<Block>>, success: bool)
      returns (result: Option<ProcessingResult>, ghost events: seq<Event>)
      requires Valid(network)
      modifies this, pending, network
      ensures Valid(network) && Acts(old(View()), events, View(), old(network.sent), network.sent)
      ensures Extends(old(pending.batches), pending.batches)
      ensures var mine := old(current).Some? && old(current).value.id == batchId;
              Handed(old(completed), if mine then None else old(current), old(jobs), Start in events, completed, current, jobs)
      ensures syncing == old(syncing) && peerPool == old(peerPool) && network.downvoted == old(network.downvoted)
      ensures var mine := old(current).Some? && old(current).value.id == batchId;
              && (result.Some? <==> mine && blocks.Some?)
              && (!mine ==> events == [])
              && (mine && blocks.None? ==> events == [Fail])
      ensures result.Some? && !success ==> result.value == KeepChain && events == [Fail] && processed == old(processed)
      ensures result.Some? && success ==> SuccessReported(old(View()), result.value, events, View())
      ensures !(result.Some? && success) ==> done == old(done)
      ensures result.Some? && success && old(Exhausted()) && result.value == KeepChain ==>
                events == [Succeed] + Startable(syncing, Next(old(View()), Succeed))
      ensures result == Some(RemoveChain) ==> events == [Succeed]
      ensures result.Some? && success ==>
                var batch := old(current).value.(downloadedBlocks := blocks.value);
                processed == (if blocks.value == [] then old(processed) else []) + (if Full(batch) then [] else [batch])
    {
      hide RunOf, RequestsOk, Proper, Inverse, Extends, SuccessReported, Acts, AllTold, Handed, BatchCount, JobsOk;
      events := [];
      ActsNot(View(), network.sent);
      NotHanded(completed, current, jobs);
      assert Extends(pending.batches, pending.batches) by { ExtendsSame(pending.batches); }
      if current.None? || current.value.id != batchId { return None, []; }
      ghost var before := View();
      var batch := current.value;
      current := None;
      if blocks.None? {
        lost := lost + {batch.id};
        events := [Fail];
        ActsOnce(before, Fail, View(), network.sent, network.sent);
        NotHanded(completed, current, jobs);
        return None, events;
      }
      ProperWithBlocks(batch, blocks.value, startNumber, targetHead);
      batch := batch.(downloadedBlocks := blocks.value);
      if success {
        var answer;
        answer, events := Succeeded(network, batch, before);
        result := Some(answer);
      } else {
        lost := lost + {batch.id};
        events := [Fail];
        ActsOnce(before, Fail, View(), network.sent, network.sent);
        NotHanded(completed, current, jobs);
        ProperNeverRetried(batch, startNumber, targetHead);
        var answer := Failed(network, batch);
        result := Some(answer);
      }
    }

    /** What a success means: the chain goes away exactly when the next id is past the last
        batch, and if batches were processed in order, exactly when every batch is done. */
    ghost predicate SuccessReported(before: Schedule, answer: ProcessingResult, events: seq<Event>, after: Schedule)
      reads this
    {
      && before.processing.Some? && after.done == before.done + [before.processing.value]
      && after.toBeProcessed == before.toBeProcessed + 1
      && (answer == RemoveChain <==> before.toBeProcessed >= BatchCount(startNumber, targetHead))
      && (InOrder(before) ==> (answer == RemoveChain <==> AllDone(after.done, startNumber, targetHead)))
      && events != [] && events[0] == Succeed
      && (forall i :: 1 <= i < |events| ==> events[i].Issue? || events[i].Start?)
    }

    /** The processed batch was good. */
    method Succeeded(network: Network, batch: Batch, ghost before: Schedule) returns (answer: ProcessingResult, ghost events: seq<Event>)
      requires Valid(network) && Proper(batch, startNumber, targetHead)
      requires before == View().(processing := Some(batch.id)) && current.None?
      modifies this`processed, this`completed, this`toBeDownloaded, this`toBeProcessed, this`lost, this`done, this`current, this`jobs, pending, network
      ensures Valid(network) && Acts(before, events, View(), old(network.sent), network.sent)
      ensures Extends(old(pending.batches), pending.batches)
      ensures Handed(old(completed), None, old(jobs), Start in events, completed, current, jobs)
      ensures SuccessReported(before, answer, events, View()) && network.downvoted == old(network.downvoted)
      ensures answer == RemoveChain ==> events == [Succeed]
      ensures old(Exhausted()) && answer == KeepChain ==> events == [Succeed] + Startable(syncing, Next(before, Succeed))
      ensures processed == (if batch.downloadedBlocks == [] then old(processed) else []) + (if Full(batch) then [] else [batch])
    {
      hide RunOf, RequestsOk, Proper, Inverse, Extends, BatchCount, AllDone, Acts, AllTold, Handed, JobsOk;
      NotHanded(completed, current, jobs);
      toBeProcessed := toBeProcessed + 1;
      done := done + [batch.id];
      events := [Succeed];
      ActsOnce(before, Succeed, View(), network.sent, network.sent);
      SucceedInOrder(before, startNumber, targetHead);
      assert Extends(pending.batches, pending.batches) by { ExtendsSame(pending.batches); }
      if |batch.downloadedBlocks| > 0 { ValidateProcessed(network); }
      if !Full(batch) { processed := processed + [batch]; }
      TargetReached(startNumber, targetHead, old(toBeProcessed));
      if CurrentProcessedSlot() >= targetHead { return RemoveChain, events; }
      ghost var more := Continue(network, before, events, old(network.sent));
      events := events + more;
      answer := KeepChain;
    }

    /** The processed batch was bad: with too many retries all peers are downvoted. */
    method Failed(network: Network, batch: Batch) returns (answer: ProcessingResult)
      modifies this`peerPool, network
      ensures answer == RemoveChain <==> batch.reprocessRetries > INVALID_BATCH_LOOKUP_ATTEMPTS
      ensures answer == RemoveChain ==> peerPool == {} && forall p :: p in old(peerPool) ==> p in network.downvoted
      ensures answer == KeepChain ==>
                peerPool == old(peerPool) && network.requestId == old(network.requestId) && network.downvoted == old(network.downvoted)
      ensures network.sent == old(network.sent)
    {
      if batch.reprocessRetries > INVALID_BATCH_LOOKUP_ATTEMPTS {
        DownvoteAll(network);
        answer := RemoveChain;
      } else {
        answer := KeepChain;
      }
    }

    /** Requests more batches and tries to start the next one. */
    method Continue(network: Network, ghost before: Schedule, ghost events: seq<Event>, ghost log: seq<Sent>) returns (ghost more: seq<Event>)
      requires Valid(network) && Acts(before, events, View(), log, network.sent)
      modifies this`completed, this`toBeDownloaded, this`lost, this`current, this`jobs, pending, network
      ensures Valid(network) && Acts(before, events + more, View(), log, network.sent)
      ensures Extends(old(pending.batches), pending.batches)
      ensures Handed(old(completed), old(current), old(jobs), Start in more, completed, current, jobs)
      ensures network.downvoted == old(network.downvoted)
      ensures forall i :: 0 <= i < |more| ==> more[i].Issue? || more[i].Start?
      ensures old(Exhausted()) ==> more == Startable(syncing, old(View()))
    {
      hide RunOf, RequestsOk, Inverse, Extends, AllProper, Acts, AllTold, Handed, BatchCount, JobsOk;
      ghost var middle, sent := View(), network.sent;
      more := RequestBatches(network);
      ActsConcat(before, events, middle, more, View(), log, sent, network.sent);
      middle := View();
      ghost var started := ProcessCompletedBatches();
      ActsQuietly(middle, started, View(), network.sent);
      ActsConcat(before, events + more, middle, started, View(), log, network.sent, network.sent);
      assert events + more + started == events + (more + started);
      more := more + started;
    }

    method DownvoteAll(network: Network)
      modifies this`peerPool, network
      ensures peerPool == {} && network.requestId >= old(network.requestId) && network.sent == old(network.sent)
      ensures forall p :: p in old(peerPool) ==> p in network.downvoted
    {
      while peerPool != {}
        invariant network.requestId >= old(network.requestId) && network.sent == old(network.sent)
        invariant forall p :: p in old(peerPool) ==> p in peerPool || p in network.downvoted
        decreases peerPool
      {
        var p :| p in peerPool;
        network.DownvotePeer(p);
        peerPool := peerPool - {p};
      }
    }

    /** A new peer gets a batch right away when all others are busy and there is one to ask for. */
    method AddPeer(network: Network, peer: PeerId) returns (ghost events: seq<Event>)
      requires Valid(network)
      modifies this`peerPool, this`toBeDownloaded, this`lost, pending, network
      ensures Valid(network) && Acts(old(View()), events, View(), old(network.sent), network.sent) && peerPool == old(peerPool) + {peer}
      ensures forall i :: 0 <= i < |events| ==> events[i].Issue?
      ensures Extends(old(pending.batches), pending.batches)
      ensures syncing && peer !in old(peerPool) && old(Idle()) == {} && old(MayRequest()) && network.delivers(old(network.requestId)) ==>
                events == [Issue(Some(old(network.requestId)))] && Idle() == {} && network.requestId == old(network.requestId) + 1
    {
      hide RunOf, Inverse, Extends, AllProper, Proper, Acts, AllTold, BatchCount, JobsOk;
      PeerAdded(pending.batches, peerPool, peer, network.requestId, startNumber, targetHead);
      assert Extends(pending.batches, pending.batches) by { ExtendsSame(pending.batches); }
      ActsNot(View(), network.sent);
      peerPool := peerPool + {peer};
      events := [];
      if !syncing { return; }
      events := RequestBatches(network);
    }

    /** Starts or resumes syncing.  When the local chain is ahead, ids restart from one while
        requests in flight and the batch being processed keep theirs. */
    method StartSyncing(network: Network, localNumber: nat) returns (ghost events: seq<Event>)
      requires Valid(network)
      modifies this, pending, network
      ensures Valid(network) && syncing && peerPool == old(peerPool)
      ensures done == if localNumber <= old(CurrentProcessedSlot()) then old(done) else []
      ensures var reindexed := localNumber > old(CurrentProcessedSlot());
              && Acts(if reindexed then Reindexed(old(View())) else old(View()), events, View(), old(network.sent), network.sent)
              && Handed(if reindexed then [] else old(completed), old(current), old(jobs), Start in events, completed, current, jobs)
      ensures forall i :: 0 <= i < |events| ==> events[i].Issue? || events[i].Start?
      ensures localNumber <= old(CurrentProcessedSlot()) && old(Idle()) == {} && old(|completed|) == 0 ==>
                events == [] && Idle() == {} && network.requestId == old(network.requestId)
    {
      hide RunOf, Inverse, AllProper, RequestsOk, Proper, IdlePeers, BatchCount, Extends, PendingIds, Acts, AllTold, Handed;
      if localNumber > CurrentProcessedSlot() {
        toBeDownloaded, toBeProcessed := 1, 1;
        completed, processed := [], [];
        done, lost := [], {};
        assert Ids([]) == [];
        assert AllProper([], startNumber, targetHead) by { NoneProper(startNumber, targetHead); }
      }
      syncing := true;
      ghost var before := View();
      events := ProcessCompletedBatches();
      ghost var middle := View();
      ActsQuietly(before, events, middle, network.sent);
      ghost var issued := RequestBatches(network);
      ActsConcat(before, events, middle, issued, View(), old(network.sent), old(network.sent), network.sent);
      events := events + issued;
    }
  }

  /** The start of the next batch, if the chain is syncing and that batch is there. */
  ghost function Startable(syncing: bool, s: Schedule): (events: seq<Event>) {
    if syncing && Enabled(s, Start) then [Start] else []
  }

  lemma {:induction false} NoRequests(s: Schedule, events: seq<Event>)
    requires forall i :: 0 <= i < |events| ==> !events[i].Issue?
    ensures Requests(s, events) == []
    decreases |events|
  {
    if |events| > 0 && Enabled(s, events[0]) { NoRequests(Next(s, events[0]), events[1..]); }
  }

  lemma {:induction false} NotHanded(completed: seq<Batch>, current: Option<Batch>, jobs: seq<Job>)
    ensures Handed(completed, current, jobs, false, completed, current, jobs)
  {}

  lemma {:induction false} JobOfBatch(b: Batch, start: nat, target: nat)
    requires Proper(b, start, target) && InRange(b)
    ensures JobOk(Job(b.id, b.downloadedBlocks), start, target)
  {}

  lemma {:induction false} NoneProper(start: nat, target: nat)
    ensures AllProper([], start, target)
  {}

  lemma {:induction false} ExtendsSame(m: map<RequestId, Batch>)
    ensures Extends(m, m)
  {}

  lemma {:induction false} OnlyOne(s: set<PeerId>)
    requires |s| == 1
    ensures forall p :: p in s ==> s - {p} == {}
  {
    forall p | p in s ensures s - {p} == {} { assert |s - {p}| == 0; }
  }

  lemma {:induction false} ProperId(b: Batch, start: nat, target: nat)
    requires Proper(b, start, target)
    ensures 1 <= b.id <= BatchCount(start, target)
  {}

  lemma {:induction false} ProperWithBlocks(b: Batch, blocks: seq<Block>, start: nat, target: nat)
    requires Proper(b, start, target)
    ensures Proper(b.(downloadedBlocks := blocks), start, target)
  {}

  lemma {:induction false} ProperNeverRetried(b: Batch, start: nat, target: nat)
    requires Proper(b, start, target)
    ensures b.reprocessRetries <= INVALID_BATCH_LOOKUP_ATTEMPTS
  {}

  lemma {:induction false} RequestsLater(batches: map<RequestId, Batch>, pool: set<PeerId>, id: RequestId, start: nat, target: nat)
    requires RequestsOk(batches, pool, id, start, target)
    ensures id !in batches && forall later: RequestId :: later >= id ==> RequestsOk(batches, pool, later, start, target)
  {}

  lemma {:induction false} PeerAdded(batches: map<RequestId, Batch>, pool: set<PeerId>, peer: PeerId, id: RequestId, start: nat, target: nat)
    requires RequestsOk(batches, pool, id, start, target)
    ensures RequestsOk(batches, pool + {peer}, id, start, target)
    ensures peer !in pool ==> IdlePeers(batches, pool + {peer}) == IdlePeers(batches, pool) + {peer}
  {}

  lemma {:induction false} SucceedInOrder(s: Schedule, start: nat, target: nat)
    requires s.processing.Some?
    ensures InOrder(s) ==> (s.toBeProcessed >= BatchCount(start, target) <==> AllDone(Next(s, Succeed).done, start, target))
  {
    if InOrder(s) {
      assert UpTo(s.toBeProcessed) == UpTo(s.toBeProcessed - 1) + [s.toBeProcessed];
      TargetMeansAllDone(Next(s, Succeed), start, target);
    }
  }

  lemma {:induction false} NoStep(s: Schedule)
    ensures RunOf(s, [], s)
  {}

  lemma {:induction false} SingleStep(s: Schedule, e: Event, s': Schedule)
    requires Enabled(s, e) && s' == Next(s, e)
    ensures RunOf(s, [e], s')
  {
    assert [e][1..] == [];
  }
}
