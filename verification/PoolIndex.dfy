/** The redundant views of the pool's contents and what keeps them in agreement. */
module PoolIndex {
  import opened Basics
  import opened PoolTypes
  import opened SenderQueue

  type Queues = map<Sender, Queue>

  /** A `BTreeSet` of scored transactions: entries that tie in rank are the same entry. */
  type Index = map<Rank, Transaction>

  ghost predicate Member(qs: Queues, t: Transaction) {
    t.tx.sender in qs && t in qs[t.tx.sender].txs
  }

  ghost predicate Shaped(qs: Queues) {
    forall s :: s in qs ==> |qs[s].txs| == |qs[s].scores| && qs[s].txs != []
  }

  ghost predicate QueuesOk(sc: Scoring, qs: Queues) {
    forall s :: s in qs ==> QueueOk(sc, s, qs[s]) && qs[s].txs != []
  }

  /** Both the insertion id and the hash identify a pooled transaction. */
  ghost predicate DistinctIds(qs: Queues) {
    forall t, u :: Member(qs, t) && Member(qs, u) && (t.insertionId == u.insertionId || t.tx.hash == u.tx.hash) ==> t == u
  }

  function Pick(q: Queue, best: bool): (p: (Score, Transaction))
    requires |q.txs| == |q.scores| && q.txs != []
  {
    if best then (q.scores[0], q.txs[0]) else (q.scores[|q.txs| - 1], q.txs[|q.txs| - 1])
  }

  /** `t` is the first (or last) transaction of its sender and `r` its rank. */
  ghost predicate IsEnd(qs: Queues, best: bool, r: Rank, t: Transaction)
    requires Shaped(qs)
  {
    t.tx.sender in qs && Pick(qs[t.tx.sender], best) == (r.score, t) && r.id == t.insertionId
  }

  /** `m` holds exactly one entry per sender: its first (or last) transaction under its score. */
  ghost predicate Indexed(m: Index, qs: Queues, best: bool)
    requires Shaped(qs)
  {
    forall r, t :: r in m && m[r] == t <==> IsEnd(qs, best, r, t)
  }

  /** `by_hash` holds exactly the queued transactions. */
  ghost predicate HashExact(byHash: map<TxHash, Transaction>, qs: Queues) {
    && (forall h :: h in byHash ==> byHash[h].tx.hash == h)
    && (forall t :: Member(qs, t) <==> t.tx.hash in byHash && byHash[t.tx.hash] == t)
  }

  function BTreeInsert(m: Index, p: (Score, Transaction)): (r: Index) {
    var k := RankOf(p.0, p.1);
    if k in m then m else m[k := p.1]
  }

  predicate IsSame(a: (Score, Transaction), b: (Score, Transaction)) {
    a.0 == b.0 && a.1.tx.hash == b.1.tx.hash
  }

  /** One ordered set after a sender's end moved from `prev` to `cur`. */
  function Patched(m: Index, prev: Option<(Score, Transaction)>, cur: Option<(Score, Transaction)>): (r: Index) {
    match (prev, cur)
    case (None, Some(c)) => BTreeInsert(m, c)
    case (Some(p), None) => m - {RankOf(p.0, p.1)}
    case (Some(p), Some(c)) => if IsSame(p, c) then m else BTreeInsert(m - {RankOf(p.0, p.1)}, c)
    case (None, None) => m
  }

  function PickOf(qs: Queues, s: Sender, best: bool): (p: Option<(Score, Transaction)>)
    requires s in qs ==> |qs[s].txs| == |qs[s].scores|
  {
    if s in qs && qs[s].txs != [] then Some(Pick(qs[s], best)) else None
  }

  ghost predicate Homed(qs: Queues) {
    Shaped(qs) && forall s :: s in qs ==> OneSender(s, qs[s].txs)
  }

  lemma {:induction false} EndIsMember(qs: Queues, best: bool, r: Rank, t: Transaction)
    requires Homed(qs) && IsEnd(qs, best, r, t)
    ensures Member(qs, t)
  {}

  lemma {:induction false} PickIsEnd(qs: Queues, s: Sender, best: bool)
    requires Homed(qs) && s in qs
    ensures var p := Pick(qs[s], best); p.1.tx.sender == s && IsEnd(qs, best, RankOf(p.0, p.1), p.1)
  {}

  /** Equal ranks belong to equal transactions. */
  lemma {:induction false} RankIdentifies(qs: Queues, best: bool, r: Rank, t: Transaction, u: Transaction)
    requires Homed(qs) && DistinctIds(qs) && IsEnd(qs, best, r, t) && IsEnd(qs, best, r, u)
    ensures t == u
  {
    EndIsMember(qs, best, r, t);
    EndIsMember(qs, best, r, u);
  }

  /** Taking a sender's entry out leaves an exact index of the others. */
  lemma {:induction false} UnindexSender(m: Index, qs: Queues, s: Sender, best: bool)
    requires Homed(qs) && DistinctIds(qs) && Indexed(m, qs, best) && s in qs
    ensures Homed(qs - {s})
    ensures var p := Pick(qs[s], best); Indexed(m - {RankOf(p.0, p.1)}, qs - {s}, best)
  {
    var p := Pick(qs[s], best);
    var k := RankOf(p.0, p.1);
    PickIsEnd(qs, s, best);
    forall r, t ensures r in m - {k} && (m - {k})[r] == t <==> IsEnd(qs - {s}, best, r, t) {
      assert r in m && m[r] == t <==> IsEnd(qs, best, r, t);
      if r == k && IsEnd(qs, best, r, t) { RankIdentifies(qs, best, r, t, p.1); }
    }
  }

  /** Adding a sender's entry to an exact index of the others indexes everything. */
  lemma {:induction false} IndexSender(m: Index, qs: Queues, s: Sender, best: bool)
    requires Homed(qs) && DistinctIds(qs) && s in qs && Homed(qs - {s}) && Indexed(m, qs - {s}, best)
    ensures Indexed(BTreeInsert(m, Pick(qs[s], best)), qs, best)
  {
    var p := Pick(qs[s], best);
    var k := RankOf(p.0, p.1);
    PickIsEnd(qs, s, best);
    var m' := BTreeInsert(m, p);
    if k in m {
      assert IsEnd(qs - {s}, best, k, m[k]);
      assert IsEnd(qs, best, k, m[k]);
      RankIdentifies(qs, best, k, m[k], p.1);
      assert false;
    }
    forall r, t ensures r in m' && m'[r] == t <==> IsEnd(qs, best, r, t) {
      if r == k {
        if IsEnd(qs, best, r, t) { RankIdentifies(qs, best, r, t, p.1); }
      } else {
        assert r in m && m[r] == t <==> IsEnd(qs - {s}, best, r, t);
      }
    }
  }

  lemma {:induction false} SameEndKeepsIndex(m: Index, qs: Queues, qs': Queues, s: Sender, best: bool)
    requires Homed(qs) && Homed(qs') && qs - {s} == qs' - {s}
    requires Indexed(m, qs, best) && s in qs && s in qs' && Pick(qs[s], best) == Pick(qs'[s], best)
    ensures Indexed(m, qs', best)
  {
    forall r, t ensures IsEnd(qs, best, r, t) <==> IsEnd(qs', best, r, t) {
      var u := t.tx.sender;
      if u != s {
        assert u in qs <==> u in qs - {s};
        assert u in qs' <==> u in qs' - {s};
        if u in qs { assert (qs - {s})[u] == qs[u] && (qs' - {s})[u] == qs'[u]; }
      }
    }
  }

  /** Patching for one sender turns an exact index of the old queues into one of the new. */
  lemma {:induction false} PatchedIsIndexed(m: Index, qs: Queues, qs': Queues, s: Sender, best: bool)
    requires Homed(qs) && Homed(qs') && qs - {s} == qs' - {s}
    requires Indexed(m, qs, best) && DistinctIds(qs) && DistinctIds(qs')
    requires s in qs && s in qs' && IsSame(Pick(qs[s], best), Pick(qs'[s], best)) ==> Pick(qs[s], best) == Pick(qs'[s], best)
    ensures Indexed(Patched(m, PickOf(qs, s, best), PickOf(qs', s, best)), qs', best)
  {
    if s in qs && s in qs' && IsSame(Pick(qs[s], best), Pick(qs'[s], best)) {
      SameEndKeepsIndex(m, qs, qs', s, best);
    } else {
      var rest := m;
      if s in qs {
        UnindexSender(m, qs, s, best);
        rest := m - {RankOf(Pick(qs[s], best).0, Pick(qs[s], best).1)};
      } else {
        assert qs - {s} == qs;
      }
      if s in qs' {
        IndexSender(rest, qs', s, best);
      } else {
        assert qs' - {s} == qs';
      }
    }
  }

  /** The queues once a sender left without transactions has lost its entry. */
  ghost function Settled(qs: Queues, s: Sender): (r: Queues) {
    if s in qs && qs[s].txs == [] then qs - {s} else qs
  }

  /** Only the queue of `s` changed, and no transaction was swapped for another of the same hash. */
  ghost predicate Moved(before: Queues, qs: Queues, s: Sender) {
    && s in qs && |qs[s].txs| == |qs[s].scores|
    && before - {s} == qs - {s}
    && Homed(before) && Homed(Settled(qs, s))
    && DistinctIds(before) && DistinctIds(Settled(qs, s))
    && (s in before ==> forall t, u :: t in before[s].txs && u in qs[s].txs && t.tx.hash == u.tx.hash ==> t == u)
  }

  /** Both ordered sets are exact again after a sender's queue moved. */
  lemma {:induction false} MovedIsIndexed(m: Index, before: Queues, qs: Queues, s: Sender, best: bool)
    requires Moved(before, qs, s) && Indexed(m, before, best)
    ensures Indexed(Patched(m, PickOf(before, s, best), PickOf(qs, s, best)), Settled(qs, s), best)
  {
    var qs': Queues := Settled(qs, s);
    assert before - {s} == qs' - {s};
    if s in before && s in qs' {
      var a, b := Pick(before[s], best).1, Pick(qs'[s], best).1;
      assert a in before[s].txs && b in qs[s].txs;
    }
    PatchedIsIndexed(m, before, qs', s, best);
  }

  /** What queues and ordered sets satisfy between any two operations. */
  ghost predicate Core(sc: Scoring, qs: Queues, best: Index, worst: Index, lastId: nat) {
    && QueuesOk(sc, qs) && Homed(qs) && DistinctIds(qs)
    && (forall t :: Member(qs, t) ==> t.insertionId <= lastId)
    && Indexed(best, qs, true) && Indexed(worst, qs, false)
  }

  /** If the scoring keeps scores with their transactions, all queues have them so. */
  ghost predicate Fair(sc: Scoring, fits: (Tx, Score) -> bool, qs: Queues) {
    sc.Tracks(fits) ==> forall s :: s in qs ==> QueueFits(fits, qs[s])
  }

  lemma {:induction false} FairAfter(sc: Scoring, fits: (Tx, Score) -> bool, qs: Queues, s: Sender, q': Queue)
    requires Fair(sc, fits, qs) && (sc.Tracks(fits) ==> QueueFits(fits, q'))
    ensures Fair(sc, fits, Settled(qs[s := q'], s))
  {}

  lemma {:induction false} FairAdded(sc: Scoring, fits: (Tx, Score) -> bool, qs: Queues, t: Transaction, limit: nat, q': Queue, r: AddResult)
    requires Fair(sc, fits, qs)
    requires var q := QueueAt(qs, t.tx.sender); |q.txs| == |q.scores| && AddOutcome(sc, q, t, limit, q', r)
    ensures Fair(sc, fits, Settled(qs[t.tx.sender := q'], t.tx.sender))
  {
    hide AddOutcome, Scoring.Tracks, QueueFits, Settled;
    if sc.Tracks(fits) {
      FairAt(sc, fits, qs, t.tx.sender);
      AddingFits(sc, fits, QueueAt(qs, t.tx.sender), t, limit, q', r);
    }
    FairAfter(sc, fits, qs, t.tx.sender, q');
  }

  lemma {:induction false} FairRescored(sc: Scoring, fits: (Tx, Score) -> bool, qs: Queues, s: Sender, event: int)
    requires Fair(sc, fits, qs) && s in qs
    ensures var q := qs[s]; Fair(sc, fits, Settled(qs[s := Queue(q.txs, sc.updateScores(q.txs, q.scores, Event(event)))], s))
  {
    hide Scoring.Tracks, Settled;
    if sc.Tracks(fits) {
      FairAt(sc, fits, qs, s);
      TracksAt(sc, fits, qs[s].txs, qs[s].scores, Event(event));
    }
    FairAfter(sc, fits, qs, s, Queue(qs[s].txs, sc.updateScores(qs[s].txs, qs[s].scores, Event(event))));
  }

  lemma {:induction false} FairDropped(sc: Scoring, fits: (Tx, Score) -> bool, qs: Queues, s: Sender, k: nat)
    requires Fair(sc, fits, qs) && s in qs && k < |qs[s].txs| == |qs[s].scores|
    ensures Fair(sc, fits, Settled(qs[s := Without(sc, qs[s], k)], s))
  {
    hide Scoring.Tracks, Settled, Without;
    if sc.Tracks(fits) {
      FairAt(sc, fits, qs, s);
      DroppingFits(sc, fits, qs[s], k);
    }
    FairAfter(sc, fits, qs, s, Without(sc, qs[s], k));
  }

  lemma {:induction false} FairCut(sc: Scoring, fits: (Tx, Score) -> bool, qs: Queues, s: Sender, n: nat)
    requires Fair(sc, fits, qs) && s in qs && n <= |qs[s].txs| == |qs[s].scores|
    ensures Fair(sc, fits, Settled(qs[s := CutFront(sc, qs[s], n)], s))
  {
    hide Scoring.Tracks, Settled, CutFront;
    if sc.Tracks(fits) {
      FairAt(sc, fits, qs, s);
      CuttingFits(sc, fits, qs[s], n);
    }
    FairAfter(sc, fits, qs, s, CutFront(sc, qs[s], n));
  }

  lemma {:induction false} FairAt(sc: Scoring, fits: (Tx, Score) -> bool, qs: Queues, s: Sender)
    requires Fair(sc, fits, qs) && sc.Tracks(fits)
    ensures QueueFits(fits, QueueAt(qs, s))
  {}

  ghost function QueueAt(qs: Queues, s: Sender): (q: Queue) {
    if s in qs then qs[s] else Queue([], [])
  }

  /** No sender is new and no queue is longer. */
  ghost predicate NoLonger(qs: Queues, before: Queues) {
    forall s :: s in qs ==> s in before && |qs[s].txs| <= |before[s].txs|
  }

  lemma {:induction false} ShorterQueue(before: Queues, s: Sender, q': Queue)
    requires s in before && |q'.txs| <= |before[s].txs|
    ensures NoLonger(Settled(before[s := q'], s), before)
  {}

  lemma {:induction false} NoLongerReflexive(qs: Queues)
    ensures NoLonger(qs, qs)
  {}

  lemma {:induction false} NoLongerTransitive(a: Queues, b: Queues, c: Queues)
    requires NoLonger(a, b) && NoLonger(b, c)
    ensures NoLonger(a, c)
  {}

  lemma {:induction false} CoreShape(sc: Scoring, qs: Queues, best: Index, worst: Index, lastId: nat)
    requires Core(sc, qs, best, worst, lastId)
    ensures QueuesOk(sc, qs) && Homed(qs) && Shaped(qs)
  {}

  lemma {:induction false} CoreDistinct(sc: Scoring, qs: Queues, best: Index, worst: Index, lastId: nat)
    requires Core(sc, qs, best, worst, lastId)
    ensures DistinctIds(qs)
  {}

  lemma {:induction false} CoreEnds(sc: Scoring, qs: Queues, best: Index, worst: Index, lastId: nat)
    requires Core(sc, qs, best, worst, lastId)
    ensures Homed(qs) && Indexed(best, qs, true)
  {}

  lemma {:induction false} CoreQueue(sc: Scoring, qs: Queues, best: Index, worst: Index, lastId: nat, s: Sender)
    requires Core(sc, qs, best, worst, lastId) && s in qs
    ensures QueueOk(sc, s, qs[s]) && qs[s].txs != []
  {}

  lemma {:induction false} EmptyQueueOk(sc: Scoring, s: Sender)
    ensures QueueOk(sc, s, Queue([], []))
  {}

  lemma {:induction false} HomedMember(sc: Scoring, qs: Queues, s: Sender, q: Queue)
    requires QueueOk(sc, s, q) && q == QueueAt(qs, s)
    ensures forall t :: t in q.txs ==> t.tx.sender == s && Member(qs, t)
  {}

  ghost predicate SenderLimitKept(qs: Queues, maxPerSender: nat) {
    forall s :: s in qs ==> |qs[s].txs| <= maxPerSender
  }

  /** The next insertion id is above every id in use. */
  lemma {:induction false} NextId(sc: Scoring, qs: Queues, best: Index, worst: Index, lastId: nat)
    requires Core(sc, qs, best, worst, lastId)
    ensures Core(sc, qs, best, worst, lastId + 1) && forall t :: Member(qs, t) ==> t.insertionId < lastId + 1
  {}

  /** A new queue of `s` made of transactions it held and possibly one new to the pool. */
  ghost predicate Reshaped(sc: Scoring, before: Queues, s: Sender, q': Queue, new_: Option<Transaction>) {
    && QueueOk(sc, s, q')
    && (forall t :: t in q'.txs ==> t in QueueAt(before, s).txs || (new_.Some? && t == new_.value))
    && (new_.Some? ==> forall t :: Member(before, t) ==> t.insertionId != new_.value.insertionId && t.tx.hash != new_.value.tx.hash)
  }

  lemma {:induction false} ReshapedMoves(sc: Scoring, before: Queues, s: Sender, q': Queue, new_: Option<Transaction>)
    requires QueuesOk(sc, before) && Homed(before) && DistinctIds(before) && Reshaped(sc, before, s, q', new_)
    ensures Moved(before, before[s := q'], s)
    ensures QueuesOk(sc, Settled(before[s := q'], s))
    ensures forall t :: Member(Settled(before[s := q'], s), t) <==> if t.tx.sender == s then t in q'.txs else Member(before, t)
  {
    var qs: Queues := before[s := q'];
    var settled: Queues := Settled(qs, s);
    assert forall t :: Member(settled, t) ==> Member(before, t) || (new_.Some? && t == new_.value);
    assert forall t :: s in before && t in before[s].txs ==> Member(before, t);
  }

  /** Reshaping one sender's queue and patching both ordered sets keeps the core invariant. */
  lemma {:induction false} CoreAfter(sc: Scoring, before: Queues, best: Index, worst: Index, lastId: nat,
                  s: Sender, q': Queue, new_: Option<Transaction>, lastId': nat)
    requires Core(sc, before, best, worst, lastId) && Reshaped(sc, before, s, q', new_)
    requires lastId <= lastId' && (new_.Some? ==> new_.value.insertionId <= lastId')
    ensures var qs := before[s := q'];
            Core(sc, Settled(qs, s), Patched(best, PickOf(before, s, true), PickOf(qs, s, true)),
                 Patched(worst, PickOf(before, s, false), PickOf(qs, s, false)), lastId')
    ensures forall t :: Member(Settled(before[s := q'], s), t) <==> if t.tx.sender == s then t in q'.txs else Member(before, t)
  {
    hide QueuesOk, Homed, DistinctIds, Indexed;
    var qs: Queues := before[s := q'];
    ReshapedMoves(sc, before, s, q', new_);
    MovedIsIndexed(best, before, qs, s, true);
    MovedIsIndexed(worst, before, qs, s, false);
  }

  datatype PoolEvent =
    | Added(tx: Transaction, replaced: Option<Transaction>)
    | Rejected(tx: Transaction)
    | Dropped(tx: Transaction, cause: Option<Transaction>)
    | Invalid(tx: Transaction)
    | Canceled(tx: Transaction)
    | Purged(tx: Transaction)

  function Applied(m: map<TxHash, Transaction>, e: PoolEvent): (r: map<TxHash, Transaction>) {
    match e
    case Added(t, None) => m[t.tx.hash := t]
    case Added(t, Some(o)) => m[t.tx.hash := t] - {o.tx.hash}
    case Rejected(_) => m
    case Dropped(t, _) => m - {t.tx.hash}
    case Invalid(t) => m - {t.tx.hash}
    case Canceled(t) => m - {t.tx.hash}
    case Purged(t) => m - {t.tx.hash}
  }

  /** The contents a listener reconstructs from the notifications alone. */
  function Replay(log: seq<PoolEvent>): (m: map<TxHash, Transaction>) {
    if |log| == 0 then map[] else Applied(Replay(log[..|log| - 1]), log[|log| - 1])
  }

  lemma {:induction false} ReplayAppend(log: seq<PoolEvent>, e: PoolEvent)
    ensures Replay(log + [e]) == Applied(Replay(log), e)
  {
    assert (log + [e])[..|log|] == log;
  }

  lemma {:induction false} ReplayRejected(log: seq<PoolEvent>, t: Transaction)
    ensures Replay(log + [Rejected(t)]) == Replay(log)
  {
    ReplayAppend(log, Rejected(t));
  }

  lemma {:induction false} HashMember(byHash: map<TxHash, Transaction>, qs: Queues, h: TxHash)
    requires HashExact(byHash, qs) && h in byHash
    ensures Member(qs, byHash[h]) && byHash[h].tx.hash == h
  {}

  lemma {:induction false} ShorterKeepsLimit(qs: Queues, before: Queues, maxPerSender: nat)
    requires NoLonger(qs, before)
    ensures SenderLimitKept(before, maxPerSender) ==> SenderLimitKept(qs, maxPerSender)
  {}

  lemma {:induction false} EmptyCore(sc: Scoring, lastId: nat)
    ensures Core(sc, map[], map[], map[], lastId) && HashExact(map[], map[]) && MemSum(map[]) == 0
  {}

  /** Distinct members of the queues have distinct hashes in the table. */
  lemma {:induction false} MembersHashed(byHash: map<TxHash, Transaction>, qs: Queues, txs: seq<Transaction>)
    requires HashExact(byHash, qs) && (forall t :: t in txs ==> Member(qs, t))
    requires Distinct(txs)
    ensures forall i :: 0 <= i < |txs| ==> txs[i].tx.hash in byHash
    ensures forall i, j :: 0 <= i < j < |txs| ==> txs[i].tx.hash != txs[j].tx.hash
  {
    forall i | 0 <= i < |txs| ensures txs[i].tx.hash in byHash && byHash[txs[i].tx.hash] == txs[i] {
      assert Member(qs, txs[i]);
    }
  }

  /** Hash table and queues stay in agreement when both lose the same transaction. */
  lemma {:induction false} HashExactRemove(byHash: map<TxHash, Transaction>, qs: Queues, qs': Queues, t: Transaction)
    requires HashExact(byHash, qs) && Member(qs, t)
    requires forall u :: Member(qs', u) <==> Member(qs, u) && u != t
    ensures HashExact(byHash - {t.tx.hash}, qs') && t.tx.hash in byHash
  {
    var m := byHash - {t.tx.hash};
    forall u ensures Member(qs', u) <==> u.tx.hash in m && m[u.tx.hash] == u {
      assert Member(qs, u) <==> u.tx.hash in byHash && byHash[u.tx.hash] == u;
    }
  }

  /** ... and when both gain `t` and lose what it displaced. */
  lemma {:induction false} HashExactAdd(byHash: map<TxHash, Transaction>, qs: Queues, qs': Queues, t: Transaction, displaced: Option<Transaction>)
    requires HashExact(byHash, qs) && t.tx.hash !in byHash
    requires displaced.Some? ==> Member(qs, displaced.value)
    requires forall u :: Member(qs', u) <==> (Member(qs, u) && displaced != Some(u)) || u == t
    ensures HashExact(Applied(byHash, Added(t, displaced)), qs')
  {
    var m := Applied(byHash, Added(t, displaced));
    forall u ensures Member(qs', u) <==> u.tx.hash in m && m[u.tx.hash] == u {
      assert Member(qs, u) <==> u.tx.hash in byHash && byHash[u.tx.hash] == u;
    }
  }

  function Hashes(txs: seq<Transaction>): (hs: set<TxHash>) {
    set t | t in txs :: t.tx.hash
  }

  lemma {:induction false} HashesAppend(txs: seq<Transaction>, i: nat)
    requires i < |txs|
    ensures Hashes(txs[..i + 1]) == Hashes(txs[..i]) + {txs[i].tx.hash}
  {
    assert txs[..i + 1] == txs[..i] + [txs[i]];
  }

  lemma {:induction false} RemoveNext(m: map<TxHash, Transaction>, txs: seq<Transaction>, i: nat)
    requires i < |txs| && txs[i].tx.hash in m && forall j :: 0 <= j < i ==> txs[j].tx.hash != txs[i].tx.hash
    ensures txs[i].tx.hash in m - Hashes(txs[..i])
    ensures m - Hashes(txs[..i]) - {txs[i].tx.hash} == m - Hashes(txs[..i + 1])
    ensures |m - Hashes(txs[..i + 1])| == |m - Hashes(txs[..i])| - 1
  {
    HashesAppend(txs, i);
    var rest := m - Hashes(txs[..i]);
    assert txs[i].tx.hash !in Hashes(txs[..i]);
    RemoveOne(rest, txs[i].tx.hash);
    assert rest - {txs[i].tx.hash} == m - Hashes(txs[..i + 1]);
  }

  lemma {:induction false} RemoveOne(m: map<TxHash, Transaction>, h: TxHash)
    requires h in m
    ensures |m - {h}| == |m| - 1
  {
    assert (m - {h}).Keys == m.Keys - {h};
  }

  /** ... and when both lose a whole batch. */
  lemma {:induction false} HashExactPurge(byHash: map<TxHash, Transaction>, qs: Queues, qs': Queues, gone: seq<Transaction>)
    requires HashExact(byHash, qs) && forall t :: t in gone ==> Member(qs, t)
    requires forall u :: Member(qs', u) <==> Member(qs, u) && u !in gone
    ensures HashExact(byHash - Hashes(gone), qs')
  {
    var m := byHash - Hashes(gone);
    forall u ensures Member(qs', u) <==> u.tx.hash in m && m[u.tx.hash] == u {
      assert Member(qs, u) <==> u.tx.hash in byHash && byHash[u.tx.hash] == u;
      if Member(qs, u) && u.tx.hash in Hashes(gone) {
        var g :| g in gone && g.tx.hash == u.tx.hash;
        assert Member(qs, g);
        assert g == u;
      }
    }
  }

  /** The log grew only by notifications of culled transactions. */
  ghost predicate OnlyPurgesSince(before: seq<PoolEvent>, log: seq<PoolEvent>) {
    before <= log && forall i :: |before| <= i < |log| ==> log[i].Purged?
  }

  /** What the queues lose when one sender's first `n` transactions go. */
  lemma {:induction false} CulledMembers(sc: Scoring, before: Queues, s: Sender, q': Queue, n: nat, gone: seq<Transaction>)
    requires sc.Lawful() && QueuesOk(sc, before) && s in before && n <= |before[s].txs|
    requires q' == CutFront(sc, before[s], n) && gone == Reverse(before[s].txs[..n])
    ensures forall t :: t in gone ==> Member(before, t)
    ensures Distinct(gone) 
    ensures forall u :: Member(Settled(before[s := q'], s), u) <==> Member(before, u) && u !in gone
    ensures NoLonger(Settled(before[s := q'], s), before)
    ensures Settled(before[s := q'], s) - {s} == before - {s}
    ensures QueueAt(Settled(before[s := q'], s), s) == q' && q'.txs == before[s].txs[n..]
  {
    var q := before[s];
    SuffixMembers(sc, q.txs, n);
    HomedMember(sc, before, s, q);
    ReverseMembers(q.txs[..n]);
  }

  lemma {:induction false} NoHashes(m: map<TxHash, Transaction>, txs: seq<Transaction>)
    ensures m - Hashes(txs[..0]) == m
  {}

  lemma {:induction false} PurgesReflexive(log: seq<PoolEvent>)
    ensures OnlyPurgesSince(log, log)
  {}

  lemma {:induction false} PurgeAppend(before: seq<PoolEvent>, log: seq<PoolEvent>, t: Transaction)
    requires OnlyPurgesSince(before, log)
    ensures OnlyPurgesSince(before, log + [Purged(t)])
  {}

  /** A queue's stale prefix and its rest share no transaction. */
  lemma {:induction false} SuffixMembers(sc: Scoring, txs: seq<Transaction>, n: nat)
    requires sc.Lawful() && Sorted(sc, txs) && n <= |txs|
    ensures forall t :: t in txs[n..] <==> t in txs && t !in txs[..n]
    ensures forall i, j :: 0 <= i < j < n ==> txs[i] != txs[j]
    ensures Sorted(sc, txs[n..])
  {
    assert txs == txs[..n] + txs[n..];
  }

  /** With these contents there is no room for one more transaction like `t`. */
  ghost predicate Full(o: Options, m: map<TxHash, Transaction>, t: Transaction) {
    |m| + 1 > o.maxCount || MemSum(m) + t.tx.memUsage > o.maxMemUsage
  }

  /** The pooled transactions of the sender of `t`, as the replacement policy gets them. */
  ghost function Pooled(qs: Queues, t: Transaction): (r: Option<seq<Transaction>>) {
    if t.tx.sender in qs then Some(qs[t.tx.sender].txs) else None
  }

  /** Exactly `t` left its sender's queue, where the rest keeps its order and is rescored; the
      other queues are as they were. */
  ghost predicate Leaves(sc: Scoring, qs: Queues, t: Transaction, qs': Queues) {
    var s, q := t.tx.sender, QueueAt(qs, t.tx.sender);
    && |q.txs| == |q.scores| && qs' - {s} == qs - {s}
    && (forall u :: Member(qs', u) <==> Member(qs, u) && u != t)
    && exists k :: 0 <= k < |q.txs| && q.txs[k] == t && qs' == Settled(qs[s := Without(sc, q, k)], s)
  }

  lemma {:induction false} LeavesQueue(sc: Scoring, qs: Queues, t: Transaction, k: nat)
    requires var q := QueueAt(qs, t.tx.sender);
             k < |q.txs| == |q.scores| && q.txs[k] == t && forall u :: u in Drop(q.txs, k) <==> u in q.txs && u != t
    requires var s := t.tx.sender;
             var qs' := Settled(qs[s := Without(sc, QueueAt(qs, s), k)], s);
             forall u :: Member(qs', u) <==> if u.tx.sender == s then u in Drop(QueueAt(qs, s).txs, k) else Member(qs, u)
    ensures Leaves(sc, qs, t, Settled(qs[t.tx.sender := Without(sc, QueueAt(qs, t.tx.sender), k)], t.tx.sender))
  {
    hide Drop;
    var s, q := t.tx.sender, QueueAt(qs, t.tx.sender);
    var qs' := Settled(qs[s := Without(sc, q, k)], s);
    assert qs' - {s} == qs - {s};
    forall u ensures Member(qs', u) <==> Member(qs, u) && u != t {
      if u.tx.sender == s { assert Member(qs, u) <==> u in q.txs; }
    }
  }

  lemma {:induction false} LeavingMembers(sc: Scoring, qs: Queues, t: Transaction, qs': Queues)
    requires Leaves(sc, qs, t, qs')
    ensures Member(qs, t) && forall u :: Member(qs', u) <==> Member(qs, u) && u != t
  {}

  /** The worst transaction `w` goes because the policy prefers `t`. */
  ghost predicate Evicts(sc: Scoring, replace: ShouldReplace, t: Transaction, qs: Queues, w: Transaction, qs': Queues) {
    Shaped(qs) && IsWorst(qs, w) && replace(w, t, Pooled(qs, t)).ReplaceOld? && Leaves(sc, qs, w, qs')
  }

  /** From one log and queues to others by evictions only: each drops the transaction that was
      worst at that moment in favour of `t`, while there was no room for it. */
  ghost predicate EvictionRun(sc: Scoring, o: Options, replace: ShouldReplace, t: Transaction,
                              log0: seq<PoolEvent>, qs0: Queues, log: seq<PoolEvent>, qs: Queues)
    decreases |log|
  {
    if |log| <= |log0| then log == log0 && qs == qs0
    else
      var front, last := log[..|log| - 1], log[|log| - 1];
      && last.Dropped? && last.cause == Some(t) && Full(o, Replay(front), t)
      && exists mid :: EvictionRun(sc, o, replace, t, log0, qs0, front, mid) && Evicts(sc, replace, t, mid, last.tx, qs)
  }

  lemma {:induction false} NoEviction(sc: Scoring, o: Options, replace: ShouldReplace, t: Transaction, log: seq<PoolEvent>, qs: Queues)
    ensures EvictionRun(sc, o, replace, t, log, qs, log, qs)
  {}

  lemma {:induction false} OneMoreEviction(sc: Scoring, o: Options, replace: ShouldReplace, t: Transaction, log0: seq<PoolEvent>, qs0: Queues,
                                           log: seq<PoolEvent>, qs: Queues, w: Transaction, qs': Queues)
    requires EvictionRun(sc, o, replace, t, log0, qs0, log, qs) && Full(o, Replay(log), t) && Evicts(sc, replace, t, qs, w, qs')
    ensures EvictionRun(sc, o, replace, t, log0, qs0, log + [Dropped(w, Some(t))], qs')
  {
    hide Full, Replay, Evicts;
    EvictionLogGrows(sc, o, replace, t, log0, qs0, log, qs);
    assert (log + [Dropped(w, Some(t))])[..|log|] == log;
  }

  lemma {:induction false} EvictionLogGrows(sc: Scoring, o: Options, replace: ShouldReplace, t: Transaction, log0: seq<PoolEvent>, qs0: Queues,
                                            log: seq<PoolEvent>, qs: Queues)
    requires EvictionRun(sc, o, replace, t, log0, qs0, log, qs)
    ensures log0 <= log
    decreases |log|
  {
    hide Full, Replay, Evicts;
    if |log| > |log0| {
      var front := log[..|log| - 1];
      var mid :| EvictionRun(sc, o, replace, t, log0, qs0, front, mid) && Evicts(sc, replace, t, mid, log[|log| - 1].tx, qs);
      EvictionLogGrows(sc, o, replace, t, log0, qs0, front, mid);
    }
  }

  lemma {:induction false} EvictionsInTurn(sc: Scoring, o: Options, replace: ShouldReplace, t: Transaction, log0: seq<PoolEvent>, qs0: Queues,
                                           log1: seq<PoolEvent>, qs1: Queues, log2: seq<PoolEvent>, qs2: Queues)
    requires EvictionRun(sc, o, replace, t, log0, qs0, log1, qs1) && EvictionRun(sc, o, replace, t, log1, qs1, log2, qs2)
    ensures EvictionRun(sc, o, replace, t, log0, qs0, log2, qs2)
    decreases |log2|
  {
    hide Full, Replay, Evicts;
    EvictionLogGrows(sc, o, replace, t, log0, qs0, log1, qs1);
    if |log2| > |log1| {
      var front := log2[..|log2| - 1];
      var mid :| EvictionRun(sc, o, replace, t, log1, qs1, front, mid) && Evicts(sc, replace, t, mid, log2[|log2| - 1].tx, qs2);
      EvictionsInTurn(sc, o, replace, t, log0, qs0, log1, qs1, front, mid);
    }
  }

  /** `m` keeps only what `before` held. */
  ghost predicate Within(m: map<TxHash, Transaction>, before: map<TxHash, Transaction>) {
    forall h :: h in m ==> h in before && m[h] == before[h]
  }

  /** New scores change neither what is pooled nor how much. */
  lemma {:induction false} SameMembers(byHash: map<TxHash, Transaction>, qs: Queues, s: Sender, qs': Queues, maxPerSender: nat)
    requires HashExact(byHash, qs) && s in qs && s in qs' && qs'[s].txs == qs[s].txs && qs' == qs[s := qs'[s]]
    ensures HashExact(byHash, qs') && (SenderLimitKept(qs, maxPerSender) ==> SenderLimitKept(qs', maxPerSender))
  {
    assert forall t :: Member(qs', t) <==> Member(qs, t);
  }

  lemma {:induction false} FewerMembers(m: map<TxHash, Transaction>, qs: Queues, before: map<TxHash, Transaction>, qs0: Queues)
    requires HashExact(m, qs) && HashExact(before, qs0) && Within(m, before)
    ensures forall t :: Member(qs, t) ==> Member(qs0, t)
  {}

  ghost function ChooseHash(m: map<TxHash, Transaction>): (h: TxHash)
    requires m != map[]
    ensures h in m
  {
    var h :| h in m;
    h
  }

  /** Memory held by the pooled transactions. */
  ghost function MemSum(m: map<TxHash, Transaction>): (sum: nat)
    decreases |m|
  {
    if m == map[] then 0
    else var h := ChooseHash(m); m[h].tx.memUsage + MemSum(m - {h})
  }

  /** The memory total may be taken apart at any transaction. */
  lemma {:induction false} MemSumRemove(m: map<TxHash, Transaction>, h: TxHash)
    requires h in m
    ensures MemSum(m) == m[h].tx.memUsage + MemSum(m - {h})
    decreases |m|
  {
    var c := ChooseHash(m);
    if c != h {
      MemSumRemove(m - {c}, h);
      MemSumRemove(m - {h}, c);
      assert m - {c} - {h} == m - {h} - {c};
    }
  }

  lemma {:induction false} MemSumInsert(m: map<TxHash, Transaction>, t: Transaction)
    requires t.tx.hash !in m
    ensures MemSum(m[t.tx.hash := t]) == MemSum(m) + t.tx.memUsage
  {
    MemSumRemove(m[t.tx.hash := t], t.tx.hash);
    assert m[t.tx.hash := t] - {t.tx.hash} == m;
  }

  /** `r` is the rank of `t`, the lowest among all senders' last transactions: the lowest
      score, and the latest of those. */
  ghost predicate WorstAt(qs: Queues, r: Rank, t: Transaction)
    requires Shaped(qs)
  {
    && IsEnd(qs, false, r, t)
    && forall r', t' :: IsEnd(qs, false, r', t') ==> r'.score > r.score || (r'.score == r.score && r'.id <= r.id)
  }

  ghost predicate IsWorst(qs: Queues, t: Transaction)
    requires Shaped(qs)
  {
    exists r :: WorstAt(qs, r, t)
  }

  /** The back of the worst set is the worst-ranked queue tail of the pool. */
  lemma {:induction false} BackIsWorst(qs: Queues, worst: Index, r: Rank)
    requires Shaped(qs) && Indexed(worst, qs, false)
    requires r in worst && forall r' :: r' in worst ==> r' == r || Better(r', r)
    ensures WorstAt(qs, r, worst[r]) && IsWorst(qs, worst[r])
  {
    assert IsEnd(qs, false, r, worst[r]);
    forall r', t' | IsEnd(qs, false, r', t') ensures r'.score > r.score || (r'.score == r.score && r'.id <= r.id) {
      assert r' in worst && worst[r'] == t';
    }
  }

  /** A non-empty ordered set has a worst rank. */
  lemma {:induction false} WorstRankExists(keys: set<Rank>) returns (w: Rank)
    requires keys != {}
    ensures w in keys && forall r :: r in keys ==> r == w || Better(r, w)
    decreases keys
  {
    var first :| first in keys;
    w := first;
    if keys != {first} {
      w := WorstRankExists(keys - {first});
      if Better(w, first) { w := first; }
    }
    assert forall r :: r in keys ==> r == first || r in keys - {first};
  }

  /** A non-empty ordered set has a best rank. */
  lemma {:induction false} BestRankExists(keys: set<Rank>) returns (w: Rank)
    requires keys != {}
    ensures w in keys && forall r :: r in keys ==> r == w || Better(w, r)
    decreases keys
  {
    var first :| first in keys;
    w := first;
    if keys != {first} {
      w := BestRankExists(keys - {first});
      if Better(first, w) { w := first; }
    }
    assert forall r :: r in keys ==> r == first || r in keys - {first};
  }

  /** Which transactions a queue holds after each outcome of an addition, and how many. */
  lemma {:induction false} AddMembers(sc: Scoring, q: Queue, new_: Transaction, maxCount: nat, q': Queue, r: AddResult)
    requires sc.Lawful() && QueueOk(sc, new_.tx.sender, q)
    requires AddOutcome(sc, q, new_, maxCount, q', r) && new_ !in q.txs
    ensures r.Accepted() ==> forall t :: t in q'.txs <==> (t in q.txs && r.Displaced() != Some(t)) || t == new_
    ensures r.Incoming() == new_ && (r.Displaced().Some? ==> r.old_ in q.txs)
    ensures !r.Accepted() ==> q' == q && q.txs != []
    ensures sc.HonoursSenderLimit() && |q.txs| <= maxCount ==> |q'.txs| <= maxCount
  {
    hide LowerBound, Scoring.Lawful, Sorted, Insert, Distinct, AddOutcome;
    SortedIsDistinct(sc, q.txs);
    var i := AddShape(sc, q, new_, maxCount, q', r);
    match r
    case AddOk(_) => InsertMembers(q.txs, i, new_);
    case Replaced(o, _) => ReplaceMembers(q.txs, i, new_);
    case PushedOut(o, _) => PushOutMembers(q.txs, i, new_);
    case _ =>
  }

  /** What an addition does to the transactions of a queue, the scores aside. */
  lemma {:induction false} AddShape(sc: Scoring, q: Queue, new_: Transaction, maxCount: nat, q': Queue, r: AddResult) returns (i: nat)
    requires |q.txs| == |q.scores| && AddOutcome(sc, q, new_, maxCount, q', r)
    ensures i <= |q.txs| && r.Incoming() == new_
    ensures match r
            case AddOk(_) =>
              && q'.txs == Insert(q.txs, i, new_) && |q'.txs| == |q.txs| + 1
              && (sc.HonoursSenderLimit() && |q.txs| <= maxCount ==> |q'.txs| <= maxCount)
            case Replaced(o, _) => i < |q.txs| && o == q.txs[i] && q'.txs == q.txs[i := new_]
            case PushedOut(o, _) =>
              i < |q.txs| && o == q.txs[|q.txs| - 1] && |Insert(q.txs, i, new_)| > |q.txs| && q'.txs == Insert(q.txs, i, new_)[..|q.txs|]
            case _ => q' == q && q.txs != []
  {
    hide LowerBound;
    i := LowerBound(sc, q.txs, new_.tx);
  }

  lemma {:induction false} SortedIsDistinct(sc: Scoring, txs: seq<Transaction>)
    requires sc.Lawful() && Sorted(sc, txs)
    ensures Distinct(txs)
  {}

  lemma {:induction false} ReplaceMembers<T>(s: seq<T>, i: nat, x: T)
    requires i < |s| && Distinct(s)
    ensures forall t :: t in s[i := x] <==> (t in s && t != s[i]) || t == x
  {
    forall t ensures t in s[i := x] <==> (t in s && t != s[i]) || t == x {
      if t in s && t != s[i] {
        var k :| 0 <= k < |s| && s[k] == t;
        assert s[i := x][k] == t;
      }
      if t == x { assert s[i := x][i] == t; }
    }
  }

  lemma {:induction false} PushOutMembers<T>(s: seq<T>, i: nat, x: T)
    requires i < |s| && Distinct(s)
    ensures Insert(s, i, x)[..|s|] == Insert(s[..|s| - 1], i, x)
    ensures forall t :: t in Insert(s, i, x)[..|s|] <==> (t in s && t != s[|s| - 1]) || t == x
  {
    InsertMembers(s[..|s| - 1], i, x);
    assert s == s[..|s| - 1] + [s[|s| - 1]];
  }

  /** Removing one slot removes exactly that transaction. */
  lemma {:induction false} DropMembers(sc: Scoring, txs: seq<Transaction>, k: nat)
    requires sc.Lawful() && Sorted(sc, txs) && k < |txs|
    ensures forall t :: t in Drop(txs, k) <==> t in txs && t != txs[k]
  {
    assert txs == txs[..k] + [txs[k]] + txs[k + 1..];
  }
}
