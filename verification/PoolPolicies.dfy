/** A scoring by gas price and a readiness check by nonce: instances of what the pool
    assumes of its plug-ins. */
module PoolPolicies {
  import opened PoolTypes
  import opened SenderQueue
  import opened PoolReadiness

  function CompareNonces(a: Tx, b: Tx): (r: Ordering) {
    if a.nonce < b.nonce then Less else if a.nonce == b.nonce then Equal else Greater
  }

  function ChooseByPrice(old_: Tx, new_: Tx): (r: Choice) {
    if old_.nonce != new_.nonce then InsertNew
    else if new_.gasPrice > old_.gasPrice then ReplaceOld
    else RejectNew
  }

  /** Scores become gas prices, or zero on an event. */
  function PriceScores(txs: seq<Transaction>, scores: seq<Score>, change: Change): (r: seq<Score>)
    ensures |r| == |scores|
  {
    seq(|scores|, i requires 0 <= i < |scores| =>
      if i >= |txs| then scores[i] else if change.Event? then 0 else txs[i].tx.gasPrice)
  }

  function DummyScoring(alwaysInsert: bool): (sc: Scoring) {
    Scoring(CompareNonces, ChooseByPrice, PriceScores, _ => alwaysInsert)
  }

  /** Scoring by price meets what the pool relies on, gives every transaction its own price or
      zero, and respects the sender limit exactly when it is not told to always insert. */
  lemma {:induction false} DummyScoringIsLawful(alwaysInsert: bool)
    ensures DummyScoring(alwaysInsert).Lawful()
    ensures DummyScoring(alwaysInsert).HonoursSenderLimit() <==> !alwaysInsert
    ensures DummyScoring(alwaysInsert).Tracks((t: Tx, score: Score) => score == t.gasPrice || score == 0)
  {
    var sc, t := DummyScoring(alwaysInsert), Tx(0, 0, 0, 0, 0);
    assert sc.ignoresSenderLimit(t) == alwaysInsert;
  }

  /** What becomes of an addition under this scoring: a pooled transaction is replaced exactly
      by a dearer one of the same nonce, a new one is turned down for another exactly when that
      has its nonce and is at least as dear, and different nonces never compete. */
  lemma {:induction false} DearerReplaces(alwaysInsert: bool, q: Queue, t: Transaction, limit: nat, q': Queue, r: AddResult)
    requires |q.txs| == |q.scores| && AddOutcome(DummyScoring(alwaysInsert), q, t, limit, q', r)
    ensures r.Replaced? ==> r.old_ in q.txs && r.old_.tx.nonce == t.tx.nonce && t.tx.gasPrice > r.old_.tx.gasPrice
    ensures r.TooCheap? ==> r.old_ in q.txs && r.old_.tx.nonce == t.tx.nonce && t.tx.gasPrice <= r.old_.tx.gasPrice
    ensures r.AddOk? || r.PushedOut? ==>
              var i := LowerBound(DummyScoring(alwaysInsert), q.txs, t.tx);
              (forall j :: 0 <= j < i ==> q.txs[j].tx.nonce < t.tx.nonce) && (i < |q.txs| ==> t.tx.nonce < q.txs[i].tx.nonce)
  {}

  /** The next nonce expected of a sender after the given questions. */
  function ExpectedNonce(min: nat, h: seq<Tx>, s: Sender): (n: nat) {
    if |h| == 0 then min
    else
      var n, last := ExpectedNonce(min, h[..|h| - 1], s), h[|h| - 1];
      if last.sender == s && last.nonce == n then n + 1 else n
  }

  function NonceReady(min: nat): (v: Verdict) {
    (h: seq<Tx>, t: Tx) =>
      var n := ExpectedNonce(min, h, t.sender);
      if t.nonce > n then Future else if t.nonce == n then Ready else Stale
  }

  lemma {:induction false} ExpectedNonceIsLocal(min: nat, h: seq<Tx>, s: Sender)
    ensures ExpectedNonce(min, h, s) == ExpectedNonce(min, OfSender(h, s), s)
    decreases |h|
  {
    if |h| > 0 {
      var front, last := h[..|h| - 1], h[|h| - 1];
      ExpectedNonceIsLocal(min, front, s);
      assert h == front + [last];
      OfSenderAppend(front, last, s);
      if last.sender == s {
        assert OfSender(h, s)[..|OfSender(h, s)| - 1] == OfSender(front, s);
      }
    } else {
      assert OfSender(h, s) == h;
    }
  }

  /** Readiness by nonce looks only at the sender's own history. */
  lemma {:induction false} NonceReadyIsLocal(min: nat)
    ensures Local(NonceReady(min))
  {
    forall h: seq<Tx>, t: Tx ensures NonceReady(min)(h, t) == NonceReady(min)(OfSender(h, t.sender), t) {
      ExpectedNonceIsLocal(min, h, t.sender);
    }
  }

  ghost predicate HasNonce(q: seq<Tx>, n: nat) {
    exists i :: 0 <= i < |q| && q[i].nonce == n
  }

  ghost predicate NonceSorted(q: seq<Tx>, s: Sender) {
    && (forall i :: 0 <= i < |q| ==> q[i].sender == s)
    && (forall i, j :: 0 <= i < j < |q| ==> q[i].nonce < q[j].nonce)
  }

  /** Asked in nonce order, the expected nonce is the first gap from `min` on. */
  lemma {:induction false} ExpectedNonceIsFirstGap(min: nat, q: seq<Tx>, s: Sender)
    requires NonceSorted(q, s)
    ensures var n := ExpectedNonce(min, q, s);
            && n >= min && !HasNonce(q, n)
            && forall k: nat :: min <= k < n ==> HasNonce(q, k)
    decreases |q|
  {
    if |q| > 0 {
      var front, last := q[..|q| - 1], q[|q| - 1];
      ExpectedNonceIsFirstGap(min, front, s);
      var m, n := ExpectedNonce(min, front, s), ExpectedNonce(min, q, s);
      forall k: nat | min <= k < n ensures HasNonce(q, k) {
        if k < m {
          assert HasNonce(front, k);
          var i :| 0 <= i < |front| && front[i].nonce == k;
          assert q[i].nonce == k;
        } else {
          assert q[|q| - 1].nonce == k;
        }
      }
      forall i | 0 <= i < |q| ensures q[i].nonce != n {
        if i < |front| { assert q[i] == front[i] && front[i].nonce != m; }
      }
    }
  }

  /** In a sorted queue exactly those transactions are ready whose nonce is reached from
      `min` without a gap, and exactly those are stale that come before `min`. */
  lemma {:induction false} ReadyIffNoGap(min: nat, q: seq<Tx>, s: Sender, i: nat)
    requires NonceSorted(q, s) && i < |q|
    ensures NonceReady(min)(q[..i], q[i]).Ready? <==>
              q[i].nonce >= min && forall k: nat :: min <= k < q[i].nonce ==> HasNonce(q[..i], k)
    ensures NonceReady(min)(q[..i], q[i]).Stale? <==> q[i].nonce < min
  {
    ExpectedNonceIsFirstGap(min, q[..i], s);
    assert forall k :: 0 <= k < i ==> q[..i][k].nonce < q[i].nonce;
    assert !HasNonce(q[..i], q[i].nonce);
  }
}
