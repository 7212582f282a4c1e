/** Whole runs of a range-sync chain: any calls, from a new chain on. */
module SyncRuns {
  import opened Basics
  import opened SyncSchedule
  import opened SyncBatches
  import opened RangeSync

  datatype SyncOp =
    | BlockResponse(requestId: RequestId, block: Option<Block>)
    | ProcessResult(batchId: nat, blocks: Option<seq<Block>>, success: bool)
    | NewPeer(peer: PeerId)
    | Resume(localNumber: nat)

  /** One call; `removed` if it asks for the chain to be dropped. */
  method Perform(chain: SyncingChain, network: Network, op: SyncOp)
    returns (removed: bool, ghost reindexed: bool, ghost events: seq<Event>)
    requires chain.Valid(network)
    modifies chain, chain.pending, network
    ensures chain.Valid(network)
    ensures reindexed <==> op.Resume? && op.localNumber > old(chain.CurrentProcessedSlot())
    ensures chain.Acts(if reindexed then Reindexed(old(chain.View())) else old(chain.View()), events, chain.View(),
                       old(network.sent), network.sent)
    ensures reindexed ==> !removed && chain.done == []
    ensures !reindexed && chain.done == old(chain.done) ==> !removed
    ensures !reindexed && chain.done != old(chain.done) && InOrder(old(chain.View())) ==>
              (removed <==> AllDone(chain.done, chain.startNumber, chain.targetHead))
  {
    hide RunOf, RequestsOk, Inverse, Extends, AllProper, AllDone, InOrder, SyncingChain.Acts, AllTold, Handed, BatchCount, JobsOk;
    removed, reindexed := false, false;
    match op
    case BlockResponse(requestId, block) =>
      var found;
      found, events := chain.OnBlockResponse(network, requestId, block);
    case ProcessResult(batchId, blocks, success) =>
      var answer;
      answer, events := chain.OnBatchProcessResult(network, batchId, blocks, success);
      removed := answer == Some(RemoveChain);
    case NewPeer(peer) =>
      events := chain.AddPeer(network, peer);
    case Resume(localNumber) =>
      reindexed := localNumber > chain.CurrentProcessedSlot();
      events := chain.StartSyncing(network, localNumber);
  }

  ghost predicate InDoneBatch(done: seq<nat>, start: nat, target: nat, block: nat) {
    exists id: nat :: id in done && Covers(start, target, id, block)
  }

  /** Every block after the start up to the target is in a batch that is done. */
  ghost predicate Synced(done: seq<nat>, start: nat, target: nat) {
    forall block: nat :: start < block <= target ==> InDoneBatch(done, start, target, block)
  }

  /** All batches are done exactly when all blocks are. */
  lemma {:induction false} AllDoneIsSynced(done: seq<nat>, start: nat, target: nat)
    requires 0 !in done
    ensures AllDone(done, start, target) <==> Synced(done, start, target)
  {
    hide BatchCount, Covers;
    if AllDone(done, start, target) {
      forall block: nat | start < block <= target ensures InDoneBatch(done, start, target, block) {
        BatchesTile(start, target, block);
        var id: nat :| 1 <= id <= BatchCount(start, target) && Covers(start, target, id, block);
        assert id in done;
      }
    }
    if Synced(done, start, target) {
      forall id: nat | 1 <= id <= BatchCount(start, target) ensures id in done {
        var block := FirstBlockOf(start, target, id);
        BatchesTile(start, target, block);
        assert InDoneBatch(done, start, target, block);
      }
    }
  }

  lemma {:induction false} FirstBlockOf(start: nat, target: nat, id: nat) returns (block: nat)
    requires 1 <= id <= BatchCount(start, target)
    ensures start < block <= target && Covers(start, target, id, block)
  {
    TargetReached(start, target, id - 1);
    block := FirstBlock(start, id);
  }

  /** What holds after any events since a chain was new: all batches are done exactly when the
      chain was told to go away and no batch was ever lost. */
  ghost predicate RightlyRemoved(s: Schedule, events: seq<Event>, start: nat, target: nat, removed: bool) {
    && Partitioned(s) && s.toBeDownloaded <= BatchCount(start, target) + 1
    && (removed ==> BatchCount(start, target) > 0)
    && (BatchCount(start, target) > 0 ==> (AllDone(s.done, start, target) <==> removed && Clean(events)))
    && (removed ==> (AllDone(s.done, start, target) <==> Calm(FRESH, events)))
  }

  /** In a calm run removal by the counter is right; in any other run a batch is lost, so that
      removal is always wrong, and only a run that lost nothing ever has all batches done. */
  lemma {:induction false} RemovalIsRight(events: seq<Event>, s: Schedule, start: nat, target: nat, removed: bool)
    requires RunOf(FRESH, events, s) && s.toBeDownloaded <= BatchCount(start, target) + 1
    requires removed ==> BatchCount(start, target) > 0
    requires Calm(FRESH, events) && BatchCount(start, target) > 0 ==> (removed <==> AllDone(s.done, start, target))
    ensures RightlyRemoved(s, events, start, target, removed)
  {
    hide RunOf, Partitioned, BatchCount, AllDone, Calm, Clean, InOrder;
    FreshIsTidy();
    RunKeepsSchedule(FRESH, events, s);
    if s.lost != {} {
      var id :| id in s.lost;
      LostMeansNotAllDone(s, start, target, id);
    }
  }

  lemma {:induction false} DoneIds(s: Schedule)
    requires Partitioned(s)
    ensures 0 !in s.done && (s.toBeDownloaded <= 1 ==> s.done == [])
  {
    assert Places(s, 0) == 0;
    if s.done != [] { assert Places(s, s.done[0]) >= 1; }
  }

  /** One more call without a restart. */
  lemma {:induction false} CallFollows(events: seq<Event>, before: Schedule, es: seq<Event>, after: Schedule, start: nat, target: nat, removed: bool)
    requires RunOf(FRESH, events, before) && RightlyRemoved(before, events, start, target, false)
    requires RunOf(before, es, after) && after.toBeDownloaded <= BatchCount(start, target) + 1
    requires after.done == before.done ==> !removed
    requires after.done != before.done && InOrder(before) ==> (removed <==> AllDone(after.done, start, target))
    ensures RunOf(FRESH, events + es, after) && RightlyRemoved(after, events + es, start, target, removed)
  {
    hide RunOf, Partitioned, BatchCount, AllDone, Calm, Clean, InOrder;
    RunConcat(FRESH, events, before, es, after);
    CalmConcat(FRESH, events, before, es);
    FreshIsTidy();
    RunKeepsSchedule(FRESH, events, before);
    RunKeepsSchedule(before, es, after);
    DoneIds(before);
    DoneIds(after);
    RemovalIsRight(events + es, after, start, target, removed);
  }

  /** Every request in the log asks for the blocks of one of the batches up to the target. */
  ghost predicate AllAskForBatches(sent: seq<Sent>, start: nat, target: nat, root: int) {
    forall k :: 0 <= k < |sent| ==> AsksForSome(sent[k].request, start, target, root)
  }

  ghost predicate AsksForSome(request: RangeRequest, start: nat, target: nat, root: int) {
    exists id: nat :: 1 <= id <= BatchCount(start, target) && AsksFor(request, start, target, root, id)
  }

  lemma {:induction false} LoggedAsk(before: seq<Sent>, after: seq<Sent>, asked: seq<(nat, nat)>, start: nat, target: nat, root: int)
    requires Logged(before, after, asked, start, target, root) && AllAskForBatches(before, start, target, root)
    ensures AllAskForBatches(after, start, target, root)
  {
    hide AsksFor, BatchCount;
    forall k | 0 <= k < |after| ensures AsksForSome(after[k].request, start, target, root) {
      if k < |before| {
        assert after[k] == before[k];
      } else {
        assert AsksFor(after[|before| + (k - |before|)].request, start, target, root, asked[k - |before|].1);
      }
    }
  }

  lemma {:induction false} ActsParts(chain: SyncingChain, s: Schedule, events: seq<Event>, s': Schedule, log: seq<Sent>, log': seq<Sent>)
    requires chain.Acts(s, events, s', log, log')
    ensures RunOf(s, events, s') && Logged(log, log', Requests(s, events), chain.startNumber, chain.targetHead, chain.targetRoot)
  {}

  /** A whole run, until the chain is to be dropped; `overlap` if ids were last restarted while
      a batch was in flight, and `events` is what happened since they were, or since the chain
      was new, when `asked` requests had gone out.  Every request that ever goes out asks for the
      blocks of one batch, and every job of the block processor holds blocks that passed the
      check of theirs.  Without overlap the requests are those for the batches issued, one by
      one; every batch issued is in exactly one place and at most six are
      pending or completed.  Then the chain is dropped rightly exactly if no answer was out of
      range except for the next batch: otherwise blocks up to the target are missing.  All
      blocks are there exactly when the chain is dropped and no batch was ever lost. */
  method Run(start: nat, target: nat, root: int, hashOf: seq<Block> -> int, delivers: nat -> bool, ops: seq<SyncOp>)
    returns (chain: SyncingChain, network: Network, removed: bool, ghost overlap: bool, ghost events: seq<Event>, ghost asked: nat)
    ensures chain.Valid(network) && chain.startNumber == start && chain.targetHead == target
    ensures AllAskForBatches(network.sent, start, target, root) && forall i :: 0 <= i < |chain.jobs| ==> JobOk(chain.jobs[i], start, target)
    ensures asked <= |network.sent|
    ensures !overlap ==> Logged(network.sent[..asked], network.sent, Requests(FRESH, events), start, target, root)
    ensures !overlap ==> RunOf(FRESH, events, chain.View()) && Partitioned(chain.View())
    ensures !overlap && Calm(FRESH, events) ==> InOrder(chain.View())
    ensures !overlap && removed ==> (AllDone(chain.done, start, target) <==> Calm(FRESH, events))
    ensures !overlap && start < target ==> (AllDone(chain.done, start, target) <==> removed && Clean(events))
    ensures !overlap ==> (AllDone(chain.done, start, target) <==> Synced(chain.done, start, target))
  {
    hide RunOf, RequestsOk, Inverse, Calm, Partitioned, InOrder, AllProper, AllDone, Synced, BatchCount, AlwaysInOrder, Clean, Quiescent, Reindexed;
    hide SyncingChain.Acts, AllTold, Logged, AllAskForBatches, Requests, JobsOk;
    network := new Network(delivers);
    chain := new SyncingChain(start, target, root, hashOf, network);
    removed, overlap, events, asked := false, false, [], 0;
    NoStep(FRESH);
    NothingAsked(start, target, root);
    assert network.sent[..0] == [];
    NothingDone(start, target);
    RemovalIsRight([], FRESH, start, target, false);
    FreshIsTidy();
    TargetReached(start, target, 0);
    var i := 0;
    while i < |ops| && !removed
      invariant 0 <= i <= |ops| && fresh(chain) && fresh(chain.pending) && fresh(network)
      invariant chain.Valid(network) && chain.startNumber == start && chain.targetHead == target
      invariant chain.targetRoot == root && AllAskForBatches(network.sent, start, target, root) && asked <= |network.sent|
      invariant !overlap ==> Logged(network.sent[..asked], network.sent, Requests(FRESH, events), start, target, root)
      invariant !overlap ==> RunOf(FRESH, events, chain.View()) && RightlyRemoved(chain.View(), events, start, target, removed)
    {
      ghost var before, again, es, log := chain.View(), false, [], network.sent;
      removed, again, es := Perform(chain, network, ops[i]);
      ActsParts(chain, if again then Reindexed(before) else before, es, chain.View(), log, network.sent);
      LoggedAsk(log, network.sent, Requests(if again then Reindexed(before) else before, es), start, target, root);
      LogGrows(log, network.sent, Requests(if again then Reindexed(before) else before, es), start, target, root);
      if again {
        asked := |log|;
        assert network.sent[..asked] == log;
        ReindexNeedsQuiescence(before);
        if Quiescent(before) { RemovalIsRight(es, chain.View(), start, target, false); }
        overlap := !Quiescent(before);
        events := es;
      } else {
        if !overlap {
          CallFollows(events, before, es, chain.View(), start, target, removed);
          RequestsConcat(FRESH, events, before, es);
          LoggedConcat(log[..asked], log, network.sent, Requests(FRESH, events), Requests(before, es), start, target, root);
          assert network.sent[..asked] == log[..asked];
        }
        events := events + es;
      }
      i := i + 1;
    }
    assert forall i :: 0 <= i < |chain.jobs| ==> JobOk(chain.jobs[i], start, target) by { JobsAreOk(chain.jobs, chain.completed, start, target); }
    if !overlap {
      RunKeepsSchedule(FRESH, events, chain.View());
      DoneIds(chain.View());
      AllDoneIsSynced(chain.done, start, target);
    }
  }

  lemma {:induction false} JobsAreOk(jobs: seq<Job>, completed: seq<Batch>, start: nat, target: nat)
    requires JobsOk(jobs, completed, start, target)
    ensures forall i :: 0 <= i < |jobs| ==> JobOk(jobs[i], start, target)
  {}

  lemma {:induction false} NothingAsked(start: nat, target: nat, root: int)
    ensures AllAskForBatches([], start, target, root) && Logged([], [], Requests(FRESH, []), start, target, root)
  {}

  lemma {:induction false} LogGrows(before: seq<Sent>, after: seq<Sent>, asked: seq<(nat, nat)>, start: nat, target: nat, root: int)
    requires Logged(before, after, asked, start, target, root)
    ensures before <= after
  {}

  lemma {:induction false} NothingDone(start: nat, target: nat)
    ensures BatchCount(start, target) > 0 ==> !AllDone([], start, target)
  {
    hide BatchCount;
    if BatchCount(start, target) > 0 { assert 1 !in []; }
  }

  // A concrete run of calls that drops a chain too early

  const START: nat := 0
  const TARGET: nat := 4 * BLOCKS_PER_BATCH

  ghost predicate Blank(batches: map<RequestId, Batch>) {
    forall r :: r in batches ==> batches[r].downloadedBlocks == []
  }

  /** A syncing chain from `START` to `TARGET` in schedule `s`, whose peers are all busy. */
  ghost predicate Stands(chain: SyncingChain, network: Network, s: Schedule)
    reads chain, chain.pending, network
  {
    && chain.Valid(network) && chain.syncing && chain.startNumber == START && chain.targetHead == TARGET
    && chain.View() == s && Blank(chain.pending.batches)
  }

  lemma {:induction false} PendingSize(batches: map<RequestId, Batch>)
    ensures |PendingIds(batches)| == |batches|
  {
    assert PendingIds(batches).Keys == batches.Keys;
  }

  lemma {:induction false} OneEvent(s: Schedule, e: Event, s': Schedule)
    requires RunOf(s, [e], s')
    ensures Enabled(s, e) && s' == Next(s, e)
  {
    assert [e][1..] == [];
  }

  ghost function Started(s: Schedule): (r: Schedule) {
    if Enabled(s, Start) then Next(s, Start) else s
  }

  lemma {:induction false} EventThenStart(s: Schedule, e: Event, s': Schedule)
    requires Enabled(s, e) && RunOf(s, [e] + Startable(true, Next(s, e)), s')
    ensures s' == Started(Next(s, e))
  {
    var s1 := Next(s, e);
    assert ([e] + Startable(true, s1))[1..] == Startable(true, s1);
    if Enabled(s1, Start) { OneEvent(s1, Start, s'); }
  }

  /** A further peer gets the next batch. */
  method PeerStep(chain: SyncingChain, network: Network, peer: PeerId, ghost s: Schedule)
    requires Stands(chain, network, s) && chain.Idle() == {} && peer !in chain.peerPool
    requires |s.completed| + |s.pending| <= BATCH_BUFFER_SIZE && FirstBlock(START, s.toBeDownloaded) <= TARGET
    requires network.delivers(network.requestId)
    modifies chain, chain.pending, network
    ensures chain.Idle() == {} && chain.peerPool == old(chain.peerPool) + {peer} && network.requestId == old(network.requestId) + 1
    ensures Enabled(s, Issue(Some(old(network.requestId)))) && Stands(chain, network, Next(s, Issue(Some(old(network.requestId)))))
  {
    hide RequestsOk, Inverse, AllProper, IdlePeers, RunOf, PendingIds, FirstBlock;
    PendingSize(chain.pending.batches);
    assert chain.MayRequest();
    ghost var es := chain.AddPeer(network, peer);
    OneEvent(s, Issue(Some(old(network.requestId))), chain.View());
  }

  function Numbered(k: nat): (m: map<nat, nat>)
    ensures |m| == k && forall i :: i in m <==> 0 <= i < k
  {
    if k == 0 then map[] else Numbered(k - 1)[k - 1 := k]
  }

  /** The first `k` batches are on their way, in the order of the request ids. */
  function InFlight(k: nat): (s: Schedule) {
    Schedule(Numbered(k), [], None, [], {}, k + 1, 1)
  }

  lemma {:induction false} InFlightNext(k: nat)
    requires k <= BATCH_BUFFER_SIZE
    ensures |InFlight(k).pending| == k
    ensures Enabled(InFlight(k), Issue(Some(k))) && Next(InFlight(k), Issue(Some(k))) == InFlight(k + 1)
  {}

  /** A chain without peers has nothing to ask for. */
  method FreshChain() returns (chain: SyncingChain, network: Network)
    ensures fresh(chain) && fresh(chain.pending) && fresh(network) && Stands(chain, network, InFlight(0))
    ensures chain.Idle() == {} && chain.peerPool == {} && network.requestId == 0 && forall k :: network.delivers(k)
  {
    hide RequestsOk, Inverse, AllProper, Proper, IdlePeers, RunOf, Next;
    network := new Network(_ => true);
    chain := new SyncingChain(START, TARGET, 0, _ => 0, network);
    assert chain.Idle() == {} by { NoPeers(chain.pending.batches); }
    ghost var es := chain.StartSyncing(network, 0);
    NoEvents(FRESH, chain.View());
    PendingSize(chain.pending.batches);
    assert InFlight(0).pending == map[];
  }

  /** Four batches are in flight, one to each of four peers. */
  method FourRequests() returns (chain: SyncingChain, network: Network)
    ensures fresh(chain) && fresh(chain.pending) && fresh(network) && Stands(chain, network, InFlight(4))
  {
    hide Stands, InFlight, Next, IdlePeers;
    chain, network := FreshChain();
    var k := 0;
    while k < 4
      invariant 0 <= k <= 4 && fresh(chain) && fresh(chain.pending) && fresh(network) && Stands(chain, network, InFlight(k))
      invariant chain.Idle() == {} && network.requestId == k && (forall p :: p in chain.peerPool ==> p <= k)
      invariant forall i :: network.delivers(i)
    {
      InFlightNext(k);
      InFlightPlain(k);
      PeerStep(chain, network, k + 1, InFlight(k));
      k := k + 1;
    }
  }

  lemma {:induction false} InFlightPlain(k: nat)
    ensures InFlight(k).completed == [] && InFlight(k).toBeDownloaded == k + 1
  {}

  lemma {:induction false} NoPeers(batches: map<RequestId, Batch>)
    ensures IdlePeers(batches, {}) == {}
  {}

  lemma {:induction false} NoEvents(s: Schedule, s': Schedule)
    requires RunOf(s, [], s')
    ensures s' == s
  {}

  /** An empty answer completes a batch. */
  method ArriveStep(chain: SyncingChain, network: Network, r: RequestId, ghost s: Schedule)
    requires Stands(chain, network, s) && r in s.pending && s.toBeDownloaded == 5
    modifies chain, chain.pending, network
    ensures Stands(chain, network, Started(Next(s, Arrive(r))))
  {
    hide RequestsOk, Inverse, AllProper, RunOf, Next;
    assert chain.Exhausted();
    ghost var m := chain.pending.batches;
    assert InRange(m[r]);
    var found;
    ghost var es;
    found, es := chain.OnBlockResponse(network, r, None);
    EventThenStart(s, Arrive(r), chain.View());
    assert r !in PendingIds(chain.pending.batches) by { ArriveDrops(s, r); }
    BlankAfter(m, chain.pending.batches, r);
  }

  lemma {:induction false} ArriveDrops(s: Schedule, r: nat)
    requires r in s.pending
    ensures r !in Started(Next(s, Arrive(r))).pending && r !in Next(s, Reject(r)).pending
  {}

  lemma {:induction false} BlankAfter(m: map<RequestId, Batch>, m': map<RequestId, Batch>, r: RequestId)
    requires Extends(m - {r}, m' - {r}) && r !in m' && Blank(m)
    ensures Blank(m')
  {
    forall k | k in m' ensures m'[k].downloadedBlocks == [] {
      assert k in m' - {r};
      if k in m { assert k in m - {r}; }
    }
  }

  lemma {:induction false} EndsInTime(m: map<RequestId, Batch>, pool: set<PeerId>, id: RequestId, r: RequestId)
    requires RequestsOk(m, pool, id, START, TARGET) && r in m
    ensures m[r].endNumber <= TARGET + 1
  {
    assert Proper(m[r], START, TARGET);
  }

  /** An answer with a block out of range is thrown away. */
  method RejectStep(chain: SyncingChain, network: Network, r: RequestId, ghost s: Schedule)
    requires Stands(chain, network, s) && r in s.pending
    modifies chain, chain.pending, network
    ensures Stands(chain, network, Next(s, Reject(r)))
  {
    hide AllProper, Inverse, RunOf, Next, Extends, AllTold, JobsOk, Handed, Logged, RequestsOk, Proper, AsksFor, BatchCount;
    ghost var m := chain.pending.batches;
    EndsInTime(m, chain.peerPool, network.requestId, r);
    var found;
    ghost var es;
    found, es := chain.OnBlockResponse(network, r, Some(Block(TARGET + 2)));
    NoEvents(s, chain.View());
    ghost var m1 := chain.pending.batches;
    assert r in m1 && m1[r].downloadedBlocks == [Block(TARGET + 2)];
    EndsInTime(m1, chain.peerPool, network.requestId, r);
    assert !InRange(m1[r]);
    found, es := chain.OnBlockResponse(network, r, None);
    OneEvent(s, Reject(r), chain.View());
    assert r !in PendingIds(chain.pending.batches) by { ArriveDrops(s, r); }
    BlankTwice(m, m1, chain.pending.batches, r);
  }

  lemma {:induction false} BlankTwice(m: map<RequestId, Batch>, m1: map<RequestId, Batch>, m2: map<RequestId, Batch>, r: RequestId)
    requires Extends(m - {r}, m1 - {r}) && Extends(m1 - {r}, m2 - {r}) && r !in m2 && Blank(m)
    ensures Blank(m2)
  {
    ExtendsTransitive(m - {r}, m1 - {r}, m2 - {r});
    BlankAfter(m, m2, r);
  }

  /** The batch being processed succeeds. */
  method SuccessStep(chain: SyncingChain, network: Network, id: nat, ghost s: Schedule) returns (answer: Option<ProcessingResult>)
    requires Stands(chain, network, s) && s.processing == Some(id) && s.toBeDownloaded == 5
    modifies chain, chain.pending, network
    ensures answer.Some? && (answer.value == RemoveChain <==> s.toBeProcessed >= 4)
    ensures answer.value == KeepChain ==> Stands(chain, network, Started(Next(s, Succeed)))
    ensures chain.Valid(network) && chain.done == s.done + [id] && chain.toBeProcessed == s.toBeProcessed + 1
    ensures Extends(old(chain.pending.batches), chain.pending.batches)
    ensures answer.value == RemoveChain ==> chain.View() == Next(s, Succeed)
  {
    hide RequestsOk, AllProper, Proper, Inverse, RunOf, Next;
    assert chain.Exhausted() && BatchCount(START, TARGET) == 4;
    ghost var es;
    answer, es := chain.OnBatchProcessResult(network, id, Some([]), true);
    if answer == Some(KeepChain) { EventThenStart(s, Succeed, chain.View()); } else { OneEvent(s, Succeed, chain.View()); }
  }

  const PROCESSING_ONE := Schedule(map[1 := 2, 2 := 3, 3 := 4], [], Some(1), [], {}, 5, 1)
  const THREE_LOST := Schedule(map[1 := 2, 3 := 4], [], Some(1), [], {3}, 5, 3)
  const ONE_DONE := Schedule(map[1 := 2, 3 := 4], [], None, [1], {3}, 5, 4)
  const PROCESSING_FOUR := Schedule(map[1 := 2], [], Some(4), [1], {3}, 5, 4)

  lemma {:induction false} FourNumbered()
    ensures Numbered(4) == map[0 := 1, 1 := 2, 2 := 3, 3 := 4]
  {
    assert Numbered(2) == map[0 := 1, 1 := 2];
  }

  lemma {:induction false} ArrivesFirst()
    ensures 0 in InFlight(4).pending && Started(Next(InFlight(4), Arrive(0))) == PROCESSING_ONE
  {
    hide Numbered;
    FourNumbered();
    var m := map[0 := 1, 1 := 2, 2 := 3, 3 := 4];
    assert m - {0} == PROCESSING_ONE.pending;
    assert Next(InFlight(4), Arrive(0)).completed == [1];
  }

  lemma {:induction false} ThreeRejected()
    ensures 2 in PROCESSING_ONE.pending && Next(PROCESSING_ONE, Reject(2)) == THREE_LOST
  {
    assert PROCESSING_ONE.pending - {2} == THREE_LOST.pending;
  }

  lemma {:induction false} OneSucceeds()
    ensures Started(Next(THREE_LOST, Succeed)) == ONE_DONE
  {
    assert Next(THREE_LOST, Succeed).done == [1];
  }

  lemma {:induction false} ArrivesFourth()
    ensures 3 in ONE_DONE.pending && Started(Next(ONE_DONE, Arrive(3))) == PROCESSING_FOUR
  {
    assert ONE_DONE.pending - {3} == PROCESSING_FOUR.pending;
    assert Next(ONE_DONE, Arrive(3)).completed == [4];
  }

  lemma {:induction false} FourSucceeds()
    ensures Skipped(Next(PROCESSING_FOUR, Succeed)) && Next(PROCESSING_FOUR, Succeed).done == [1, 4]
  {
    var s := Next(PROCESSING_FOUR, Succeed);
    assert s.pending[1] == 2 && Pending(s, 2);
    assert s.done == [1, 4];
  }

  /** A chain that is dropped as complete although batch 2 is still on its way and batch 3
      was thrown away: the answer for batch 3 held a block out of range. */
  method PrematureRemoval() returns (chain: SyncingChain, network: Network, answer: Option<ProcessingResult>)
    ensures chain.Valid(network) && answer == Some(RemoveChain)
    ensures Skipped(chain.View()) && !AllDone(chain.done, START, TARGET)
  {
    hide Stands, Next, Started, Skipped, InFlight, RunOf, RequestsOk;
    chain, network := FourRequests();
    ArrivesFirst();
    InFlightPlain(4);
    ArriveStep(chain, network, 0, InFlight(4));
    ThreeRejected();
    RejectStep(chain, network, 2, PROCESSING_ONE);
    answer := SuccessStep(chain, network, 1, THREE_LOST);
    OneSucceeds();
    ArrivesFourth();
    ArriveStep(chain, network, 3, ONE_DONE);
    answer := SuccessStep(chain, network, 4, PROCESSING_FOUR);
    FourSucceeds();
    assert 2 !in [1, 4];
  }
}
