/** Batches of blocks and the table of requests in flight, with its peer index. */
module SyncBatches {
  import opened Basics
  import opened SyncSchedule

  type PeerId = nat
  type RequestId = nat

  datatype Block = Block(height: nat)

  datatype Batch = Batch(
    id: nat,
    startNumber: nat,
    endNumber: nat,
    headRoot: int,
    originalPeer: PeerId,
    currentPeer: PeerId,
    reprocessRetries: nat,
    originalHash: Option<int>,
    downloadedBlocks: seq<Block>)

  datatype RangeRequest = RangeRequest(headBlockRoot: int, startSlot: nat, count: nat, step: nat)

  /** The request for a batch asks for exactly its blocks. */
  function ToBlocksByRangeRequest(b: Batch): (r: RangeRequest)
    requires b.startNumber <= b.endNumber
    ensures r.startSlot == b.startNumber && r.step == 1
    ensures r.count <= BLOCKS_PER_BATCH && r.startSlot + r.count <= b.endNumber
    ensures r.count == BLOCKS_PER_BATCH || r.startSlot + r.count == b.endNumber
  {
    var n := b.endNumber - b.startNumber;
    RangeRequest(b.headRoot, b.startNumber, if n < BLOCKS_PER_BATCH then n else BLOCKS_PER_BATCH, 1)
  }

  /** A request that went out: its id, whom it went to and what it asks for. */
  datatype Sent = Sent(id: RequestId, peer: PeerId, request: RangeRequest)

  /** Blocks handed to the block processor as one batch. */
  datatype Job = Job(batchId: nat, blocks: seq<Block>)

  ghost predicate Assigned(batches: map<RequestId, Batch>, r: RequestId, p: PeerId) {
    r in batches && batches[r].currentPeer == p
  }

  ghost predicate Filed(peers: map<PeerId, set<RequestId>>, p: PeerId, r: RequestId) {
    p in peers && r in peers[p]
  }

  /** `peers` is the inverse of the request table and has no empty entries. */
  ghost predicate Inverse(batches: map<RequestId, Batch>, peers: map<PeerId, set<RequestId>>) {
    && (forall p: PeerId, r: RequestId :: Filed(peers, p, r) <==> Assigned(batches, r, p))
    && (forall p :: p in peers ==> peers[p] != {})
  }

  /** No peer has two requests in flight. */
  ghost predicate OnePerPeer(batches: map<RequestId, Batch>) {
    forall r, r' :: r in batches && r' in batches && batches[r].currentPeer == batches[r'].currentPeer ==> r == r'
  }

  function WithRequest(peers: map<PeerId, set<RequestId>>, p: PeerId, r: RequestId): (m: map<PeerId, set<RequestId>>) {
    peers[p := (if p in peers then peers[p] else {}) + {r}]
  }

  /** Inserting keeps the index an inverse exactly when the request id is fresh or stays
      with its peer. */
  lemma {:induction false} InsertKeepsInverse(batches: map<RequestId, Batch>, peers: map<PeerId, set<RequestId>>, r: RequestId, b: Batch)
    requires Inverse(batches, peers)
    ensures Inverse(batches[r := b], WithRequest(peers, b.currentPeer, r)) <==>
              (r !in batches || batches[r].currentPeer == b.currentPeer)
  {
    var peers' := WithRequest(peers, b.currentPeer, r);
    if r in batches && batches[r].currentPeer != b.currentPeer {
      var p := batches[r].currentPeer;
      assert Assigned(batches, r, p) && !Assigned(batches[r := b], r, p);
      assert Filed(peers', p, r);
    } else {
      forall p: PeerId, k: RequestId ensures Filed(peers', p, k) <==> Assigned(batches[r := b], k, p) {
        assert Filed(peers, p, k) <==> Assigned(batches, k, p);
      }
    }
  }

  function WithoutRequest(peers: map<PeerId, set<RequestId>>, p: PeerId, r: RequestId): (m: map<PeerId, set<RequestId>>) {
    if p !in peers then peers
    else if peers[p] - {r} == {} then peers - {p}
    else peers[p := peers[p] - {r}]
  }

  lemma {:induction false} RemoveKeepsInverse(batches: map<RequestId, Batch>, peers: map<PeerId, set<RequestId>>, r: RequestId)
    requires Inverse(batches, peers) && r in batches
    ensures Inverse(batches - {r}, WithoutRequest(peers, batches[r].currentPeer, r))
  {
    var q := batches[r].currentPeer;
    var peers' := WithoutRequest(peers, q, r);
    assert Assigned(batches, r, q);
    forall p: PeerId, k: RequestId ensures Filed(peers', p, k) <==> Assigned(batches - {r}, k, p) {
      assert Filed(peers, p, k) <==> Assigned(batches, k, p);
      if p == q && p !in peers' && k in peers[p] { assert k in peers[p] - {r} <==> k != r; }
    }
  }

  lemma {:induction false} BlockKeepsInverse(batches: map<RequestId, Batch>, peers: map<PeerId, set<RequestId>>, r: RequestId, b: Batch)
    requires Inverse(batches, peers) && r in batches && batches[r].currentPeer == b.currentPeer
    ensures Inverse(batches[r := b], peers)
  {
    forall p: PeerId, k: RequestId ensures Filed(peers, p, k) <==> Assigned(batches[r := b], k, p) {
      assert Assigned(batches[r := b], k, p) <==> Assigned(batches, k, p);
    }
  }

  lemma {:induction false} IdleIsExact(batches: map<RequestId, Batch>, peers: map<PeerId, set<RequestId>>, p: PeerId)
    requires Inverse(batches, peers)
    ensures p !in peers <==> forall r :: r in batches ==> batches[r].currentPeer != p
  {
    if p in peers {
      var r :| r in peers[p];
      assert Filed(peers, p, r);
      assert Assigned(batches, r, p);
    } else {
      forall r | r in batches ensures batches[r].currentPeer != p {
        assert !Assigned(batches, r, p);
      }
    }
  }

  class PendingBatches {
    var batches: map<RequestId, Batch>
    var peerRequests: map<PeerId, set<RequestId>>

    ghost predicate Valid()
      reads this
    {
      Inverse(batches, peerRequests)
    }

    constructor ()
      ensures Valid() && batches == map[] && peerRequests == map[]
    {
      batches, peerRequests := map[], map[];
    }

    method Insert(requestId: RequestId, batch: Batch) returns (previous: Option<Batch>)
      requires Valid()
      modifies this
      ensures Valid() <==> requestId !in old(batches) || old(batches)[requestId].currentPeer == batch.currentPeer
      ensures batches == old(batches)[requestId := batch]
      ensures previous == if requestId in old(batches) then Some(old(batches)[requestId]) else None
    {
      InsertKeepsInverse(batches, peerRequests, requestId, batch);
      peerRequests := WithRequest(peerRequests, batch.currentPeer, requestId);
      previous := if requestId in batches then Some(batches[requestId]) else None;
      batches := batches[requestId := batch];
    }

    method Remove(requestId: RequestId) returns (r: Option<Batch>)
      requires Valid()
      modifies this
      ensures Valid() && batches == old(batches) - {requestId}
      ensures r == if requestId in old(batches) then Some(old(batches)[requestId]) else None
    {
      if requestId !in batches {
        assert batches - {requestId} == batches;
        return None;
      }
      RemoveKeepsInverse(batches, peerRequests, requestId);
      var batch := batches[requestId];
      batches := batches - {requestId};
      if batch.currentPeer in peerRequests {
        var rest := peerRequests[batch.currentPeer] - {requestId};
        peerRequests := if rest == {} then peerRequests - {batch.currentPeer} else peerRequests[batch.currentPeer := rest];
      }
      r := Some(batch);
    }

    method AddBlock(requestId: RequestId, block: Block) returns (found: bool)
      requires Valid()
      modifies this`batches
      ensures Valid() && (found <==> requestId in old(batches))
      ensures batches == if found then
                           old(batches)[requestId := old(batches)[requestId].(downloadedBlocks := old(batches)[requestId].downloadedBlocks + [block])]
                         else old(batches)
    {
      found := requestId in batches;
      if found {
        var b := batches[requestId];
        BlockKeepsInverse(batches, peerRequests, requestId, b.(downloadedBlocks := b.downloadedBlocks + [block]));
        batches := batches[requestId := b.(downloadedBlocks := b.downloadedBlocks + [block])];
      }
    }

    /** A peer is idle iff no request in flight is assigned to it. */
    predicate PeerIsIdle(peer: PeerId)
      requires Valid()
      reads this
      ensures PeerIsIdle(peer) <==> forall r :: r in batches ==> batches[r].currentPeer != peer
    {
      IdleIsExact(batches, peerRequests, peer);
      peer !in peerRequests
    }
  }
}
