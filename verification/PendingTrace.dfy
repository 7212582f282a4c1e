/** What a run of the pending iterator has asked so far, and what that determines. */
module PendingTrace {
  import opened Basics
  import opened PoolTypes
  import opened SenderQueue
  import opened PoolIndex
  import opened PoolReadiness

  /** A transaction taken from the ordered set of heads and the verdict it got. */
  datatype Question = Question(t: Transaction, answer: Readiness)

  function Seen(trace: seq<Question>, s: Sender): (r: seq<Question>) {
    if |trace| == 0 then []
    else
      var rest, last := Seen(trace[..|trace| - 1], s), trace[|trace| - 1];
      if last.t.tx.sender == s then rest + [last] else rest
  }

  lemma {:induction false} SeenAppend(trace: seq<Question>, q: Question, s: Sender)
    ensures Seen(trace + [q], s) == Seen(trace, s) + if q.t.tx.sender == s then [q] else []
  {
    assert (trace + [q])[..|trace|] == trace;
  }

  function Questions(trace: seq<Question>): (r: seq<Tx>)
    ensures |r| == |trace| && forall i :: 0 <= i < |trace| ==> r[i] == trace[i].t.tx
  {
    seq(|trace|, i requires 0 <= i < |trace| => trace[i].t.tx)
  }

  /** A sender was examined along a prefix of its queue, never past a future transaction. */
  ghost predicate InOrder(qs: Queues, trace: seq<Question>, s: Sender) {
    var seen, txs := Seen(trace, s), QueueAt(qs, s).txs;
    && |seen| <= |txs|
    && (forall i :: 0 <= i < |seen| ==> seen[i].t == txs[i])
    && (forall i :: 0 <= i < |seen| - 1 ==> !seen[i].answer.Future?)
  }

  /** A sender still has a transaction to examine. */
  ghost predicate Open(qs: Queues, scope: set<Sender>, trace: seq<Question>, s: Sender) {
    var seen := Seen(trace, s);
    && s in scope && |seen| < |QueueAt(qs, s).txs|
    && (|seen| > 0 ==> !seen[|seen| - 1].answer.Future?)
  }

  /** `t` is the next transaction of its sender and `r` its rank. */
  ghost predicate IsHead(qs: Queues, scope: set<Sender>, trace: seq<Question>, r: Rank, t: Transaction) {
    var s := t.tx.sender;
    var q, p := QueueAt(qs, s), |Seen(trace, s)|;
    && Open(qs, scope, trace, s) && p < |q.scores|
    && t == q.txs[p] && r == RankOf(q.scores[p], t)
  }

  ghost predicate HeadsExact(qs: Queues, scope: set<Sender>, trace: seq<Question>, best: Index) {
    forall r, t :: r in best && best[r] == t <==> IsHead(qs, scope, trace, r, t)
  }

  /** `t` has the highest score of all current heads, and is the oldest of those. */
  ghost predicate BestHead(qs: Queues, scope: set<Sender>, trace: seq<Question>, t: Transaction) {
    exists r :: IsHead(qs, scope, trace, r, t)
                && forall r', t' :: IsHead(qs, scope, trace, r', t') ==> r.score > r'.score || (r.score == r'.score && r.id <= r'.id)
  }

  ghost predicate Greedy(qs: Queues, scope: set<Sender>, trace: seq<Question>) {
    forall k :: 0 <= k < |trace| ==> BestHead(qs, scope, trace[..k], trace[k].t)
  }

  /** Every verdict is what the check answers after everything asked before. */
  ghost predicate Answered(v: Verdict, h0: seq<Tx>, trace: seq<Question>) {
    forall k :: 0 <= k < |trace| ==> trace[k].answer == v(h0 + Questions(trace[..k]), trace[k].t.tx)
  }

  /** A run so far: per-sender order, best head first, truthful verdicts, exact heads. */
  ghost predicate RunOk(v: Verdict, h0: seq<Tx>, qs: Queues, scope: set<Sender>, trace: seq<Question>, best: Index) {
    && (forall s :: InOrder(qs, trace, s))
    && Greedy(qs, scope, trace) && Answered(v, h0, trace) && HeadsExact(qs, scope, trace, best)
  }

  lemma {:induction false} HeadIsMember(qs: Queues, scope: set<Sender>, trace: seq<Question>, r: Rank, t: Transaction)
    requires IsHead(qs, scope, trace, r, t)
    ensures Member(qs, t)
  {}

  /** The set of heads after the head `t` was examined. */
  function NextHeads(best: Index, r: Rank, answer: Readiness, next: Option<(Score, Transaction)>): (m: Index) {
    if !answer.Future? && next.Some? then BTreeInsert(best - {r}, next.value) else best - {r}
  }

  ghost function Successor(qs: Queues, s: Sender, p: nat): (r: Option<(Score, Transaction)>)
  {
    var q := QueueAt(qs, s);
    if p < |q.txs| && p < |q.scores| then Some((q.scores[p], q.txs[p])) else None
  }

  /** Heads of the other senders are not affected by examining one. */
  lemma {:induction false} OtherHeads(qs: Queues, scope: set<Sender>, trace: seq<Question>, q: Question, r: Rank, t: Transaction)
    requires t.tx.sender != q.t.tx.sender
    ensures IsHead(qs, scope, trace + [q], r, t) <==> IsHead(qs, scope, trace, r, t)
  {
    SeenAppend(trace, q, t.tx.sender);
  }

  /** The examined sender's new head is its next transaction, unless the verdict was future. */
  lemma {:induction false} OwnHead(qs: Queues, scope: set<Sender>, trace: seq<Question>, r0: Rank, q: Question, r: Rank, t: Transaction)
    requires Homed(qs) && IsHead(qs, scope, trace, r0, q.t) && t.tx.sender == q.t.tx.sender
    ensures IsHead(qs, scope, trace + [q], r, t) <==>
              && !q.answer.Future?
              && var next := Successor(qs, t.tx.sender, |Seen(trace, t.tx.sender)| + 1);
                 next.Some? && next.value.1 == t && r == RankOf(next.value.0, t)
  {
    SeenAppend(trace, q, t.tx.sender);
  }

  lemma {:induction false} HeadRankIdentifies(qs: Queues, scope: set<Sender>, trace: seq<Question>, r: Rank, t: Transaction, u: Transaction)
    requires DistinctIds(qs) && Member(qs, t) && t.insertionId == r.id && IsHead(qs, scope, trace, r, u)
    ensures t == u
  {
    HeadIsMember(qs, scope, trace, r, u);
  }

  /** Examining the head `q.t` turns exact heads into exact heads. */
  lemma {:induction false} HeadsAdvance(qs: Queues, scope: set<Sender>, trace: seq<Question>, best: Index, r0: Rank, q: Question)
    requires Homed(qs) && DistinctIds(qs) && HeadsExact(qs, scope, trace, best)
    requires r0 in best && best[r0] == q.t
    ensures var s := q.t.tx.sender;
            HeadsExact(qs, scope, trace + [q], NextHeads(best, r0, q.answer, Successor(qs, s, |Seen(trace, s)| + 1)))
  {
    hide Homed, DistinctIds, IsHead;
    var s := q.t.tx.sender;
    var next := Successor(qs, s, |Seen(trace, s)| + 1);
    var best' := NextHeads(best, r0, q.answer, next);
    assert IsHead(qs, scope, trace, r0, q.t);
    HeadRank(qs, scope, trace, r0, q.t);
    if next.Some? { SuccessorFresh(qs, scope, trace, best, r0, q.t); }
    forall r, t ensures r in best' && best'[r] == t <==> IsHead(qs, scope, trace + [q], r, t) {
      assert r in best && best[r] == t <==> IsHead(qs, scope, trace, r, t);
      if t.tx.sender == s {
        OwnHead(qs, scope, trace, r0, q, r, t);
        if r in best && best[r] == t { SameHead(qs, scope, trace, r0, q.t, r, t); }
      } else {
        OtherHeads(qs, scope, trace, q, r, t);
      }
    }
  }

  lemma {:induction false} HeadRank(qs: Queues, scope: set<Sender>, trace: seq<Question>, r: Rank, t: Transaction)
    requires IsHead(qs, scope, trace, r, t)
    ensures r.id == t.insertionId
  {}

  lemma {:induction false} SameHead(qs: Queues, scope: set<Sender>, trace: seq<Question>, r: Rank, t: Transaction, r': Rank, t': Transaction)
    requires IsHead(qs, scope, trace, r, t) && IsHead(qs, scope, trace, r', t') && t.tx.sender == t'.tx.sender
    ensures r == r' && t == t'
  {}

  /** The successor of a head belongs to the same sender and its rank is new. */
  lemma {:induction false} SuccessorFresh(qs: Queues, scope: set<Sender>, trace: seq<Question>, best: Index, r0: Rank, t: Transaction)
    requires Homed(qs) && DistinctIds(qs) && HeadsExact(qs, scope, trace, best) && IsHead(qs, scope, trace, r0, t)
    requires Successor(qs, t.tx.sender, |Seen(trace, t.tx.sender)| + 1).Some?
    ensures var n := Successor(qs, t.tx.sender, |Seen(trace, t.tx.sender)| + 1).value;
            n.1.tx.sender == t.tx.sender && RankOf(n.0, n.1) !in best - {r0}
  {
    var s := t.tx.sender;
    var n := Successor(qs, s, |Seen(trace, s)| + 1).value;
    assert n.1 in qs[s].txs;
    assert Member(qs, n.1);
    var k := RankOf(n.0, n.1);
    if k in best - {r0} {
      assert IsHead(qs, scope, trace, k, best[k]);
      HeadRankIdentifies(qs, scope, trace, k, n.1, best[k]);
      assert false;
    }
  }

  lemma {:induction false} InOrderAdvance(qs: Queues, scope: set<Sender>, trace: seq<Question>, r0: Rank, q: Question, s: Sender)
    requires InOrder(qs, trace, s) && IsHead(qs, scope, trace, r0, q.t)
    ensures InOrder(qs, trace + [q], s)
  {
    SeenAppend(trace, q, s);
  }

  /** Examining the best head extends a run. */
  lemma {:induction false} RunAdvances(v: Verdict, h0: seq<Tx>, qs: Queues, scope: set<Sender>, trace: seq<Question>, best: Index, r0: Rank, q: Question)
    requires RunOk(v, h0, qs, scope, trace, best) && Homed(qs) && DistinctIds(qs)
    requires r0 in best && best[r0] == q.t && forall r :: r in best ==> r == r0 || Better(r0, r)
    requires q.answer == v(h0 + Questions(trace), q.t.tx)
    ensures var s := q.t.tx.sender;
            RunOk(v, h0, qs, scope, trace + [q], NextHeads(best, r0, q.answer, Successor(qs, s, |Seen(trace, s)| + 1)))
  {
    hide Homed, DistinctIds, IsHead, InOrder;
    var trace' := trace + [q];
    assert trace'[..|trace|] == trace;
    assert forall k :: 0 <= k <= |trace| ==> trace'[..k] == trace[..k];
    assert IsHead(qs, scope, trace, r0, q.t);
    assert BestHead(qs, scope, trace, q.t) by {
      forall r, t | IsHead(qs, scope, trace, r, t) ensures r0.score > r.score || (r0.score == r.score && r0.id <= r.id) {
        assert r in best && best[r] == t;
      }
    }
    forall s ensures InOrder(qs, trace', s) { InOrderAdvance(qs, scope, trace, r0, q, s); }
    HeadsAdvance(qs, scope, trace, best, r0, q);
  }

  /** What was asked for a sender is what its seen questions ask. */
  lemma {:induction false} SeenQuestions(trace: seq<Question>, s: Sender)
    ensures OfSender(Questions(trace), s) == Questions(Seen(trace, s))
  {
    if |trace| > 0 {
      var front, q := trace[..|trace| - 1], trace[|trace| - 1];
      SeenQuestions(front, s);
      SeenAppend(front, q, s);
      OfSenderAppend(Questions(front), q.t.tx, s);
      assert trace == front + [q];
      assert Questions(trace) == Questions(front) + [q.t.tx];
    }
  }

  lemma {:induction false} OfSenderOver(h: seq<Tx>, k: seq<Tx>, s: Sender)
    ensures OfSender(h + k, s) == OfSender(h, s) + OfSender(k, s)
    decreases |k|
  {
    if |k| == 0 {
      assert h + k == h;
    } else {
      var front, t := k[..|k| - 1], k[|k| - 1];
      OfSenderOver(h, front, s);
      OfSenderAppend(h + front, t, s);
      assert h + k == h + front + [t];
    }
  }

  /** Under local readiness a sender's verdicts are those of asking its queue alone. */
  ghost predicate AnsweredAlone(v: Verdict, h: seq<Tx>, txs: seq<Transaction>, seen: seq<Question>) {
    |seen| <= |txs| && forall i :: 0 <= i < |seen| ==> seen[i].answer == v(h + Bodies(txs[..i]), txs[i].tx)
  }

  lemma {:induction false} LocalAnswers(v: Verdict, h0: seq<Tx>, qs: Queues, trace: seq<Question>, s: Sender)
    requires Local(v) && Answered(v, h0, trace) && InOrder(qs, trace, s)
    ensures AnsweredAlone(v, OfSender(h0, s), QueueAt(qs, s).txs, Seen(trace, s))
    decreases |trace|
  {
    hide Local, OfSender;
    if |trace| > 0 {
      var front, q := trace[..|trace| - 1], trace[|trace| - 1];
      assert trace == front + [q];
      SeenAppend(front, q, s);
      InOrderPrefix(qs, front, q, s);
      AnsweredPrefix(v, h0, front, q);
      LocalAnswers(v, h0, qs, front, s);
      if q.t.tx.sender == s {
        var seen, txs := Seen(front, s), QueueAt(qs, s).txs;
        LocalAt(v, h0 + Questions(front), q.t.tx);
        OfSenderOver(h0, Questions(front), s);
        SeenQuestions(front, s);
        assert Questions(seen) == Bodies(txs[..|seen|]);
      }
    }
  }

  lemma {:induction false} InOrderPrefix(qs: Queues, front: seq<Question>, q: Question, s: Sender)
    requires InOrder(qs, front + [q], s)
    ensures InOrder(qs, front, s)
    ensures q.t.tx.sender == s ==> |Seen(front, s)| < |QueueAt(qs, s).txs| && q.t == QueueAt(qs, s).txs[|Seen(front, s)|]
  {
    SeenAppend(front, q, s);
    var seen, all := Seen(front, s), Seen(front + [q], s);
    assert forall i :: 0 <= i < |seen| ==> all[i] == seen[i];
  }

  lemma {:induction false} AnsweredPrefix(v: Verdict, h0: seq<Tx>, front: seq<Question>, q: Question)
    requires Answered(v, h0, front + [q])
    ensures Answered(v, h0, front) && q.answer == v(h0 + Questions(front), q.t.tx)
  {
    var trace := front + [q];
    assert trace[..|front|] == front;
    assert trace[|front|] == q;
    forall k | 0 <= k < |front| ensures front[k].answer == v(h0 + Questions(front[..k]), front[k].t.tx) {
      assert trace[k] == front[k] && trace[..k] == front[..k];
    }
  }

  function ReadyCount(seen: seq<Question>): (n: nat) {
    if |seen| == 0 then 0 else ReadyCount(seen[..|seen| - 1]) + if seen[|seen| - 1].answer.Ready? then 1 else 0
  }

  /** The transactions handed out by a run, in order. */
  function Yielded(trace: seq<Question>): (r: seq<Tx>)
    ensures |r| == ReadyCount(trace)
  {
    if |trace| == 0 then []
    else Yielded(trace[..|trace| - 1]) + if trace[|trace| - 1].answer.Ready? then [trace[|trace| - 1].t.tx] else []
  }

  lemma {:induction false} YieldedAppend(trace: seq<Question>, q: Question)
    ensures Yielded(trace + [q]) == Yielded(trace) + if q.answer.Ready? then [q.t.tx] else []
    ensures ReadyCount(trace + [q]) == ReadyCount(trace) + if q.answer.Ready? then 1 else 0
  {
    assert (trace + [q])[..|trace|] == trace;
  }

  function ReadyOver(trace: seq<Question>, order: seq<Sender>): (n: nat) {
    if |order| == 0 then 0 else ReadyOver(trace, order[..|order| - 1]) + ReadyCount(Seen(trace, order[|order| - 1]))
  }

  lemma {:induction false} ReadyOverAppend(trace: seq<Question>, q: Question, order: seq<Sender>)
    requires Distinct(order)
    ensures ReadyOver(trace + [q], order) ==
              ReadyOver(trace, order) + if q.answer.Ready? && q.t.tx.sender in order then 1 else 0
    decreases |order|
  {
    if |order| > 0 {
      var front, s := order[..|order| - 1], order[|order| - 1];
      assert order == front + [s];
      DistinctPrefix(front, s);
      ReadyOverAppend(trace, q, front);
      SeenAppend(trace, q, s);
      if q.t.tx.sender == s { YieldedAppend(Seen(trace, s), q); }
      else { assert Seen(trace + [q], s) == Seen(trace, s); }
    }
  }

  /** The ready questions of a run, counted sender by sender. */
  lemma {:induction false} ReadyBySender(trace: seq<Question>, order: seq<Sender>)
    requires Distinct(order) && forall k :: 0 <= k < |trace| ==> trace[k].t.tx.sender in order
    ensures ReadyCount(trace) == ReadyOver(trace, order)
    decreases |trace|
  {
    if |trace| == 0 {
      NothingReady(trace, order);
    } else {
      var front, q := trace[..|trace| - 1], trace[|trace| - 1];
      assert trace == front + [q];
      ReadyBySender(front, order);
      ReadyOverAppend(front, q, order);
      YieldedAppend(front, q);
    }
  }

  lemma {:induction false} NothingReady(trace: seq<Question>, order: seq<Sender>)
    requires |trace| == 0
    ensures ReadyOver(trace, order) == 0
    decreases |order|
  {
    if |order| > 0 { NothingReady(trace, order[..|order| - 1]); }
  }

  /** Counting along a queue: what was seen plus what a classification of the rest finds. */
  lemma {:induction false} CountSoFar(v: Verdict, h: seq<Tx>, txs: seq<Transaction>, seen: seq<Question>, i: nat)
    requires AnsweredAlone(v, h, txs, seen) && i <= |seen|
    requires forall j :: 0 <= j < i ==> !seen[j].answer.Future?
    ensures ReadyCount(seen[..i]) + Classify(v, h + Bodies(txs[..i]), txs[i..]).pending == Classify(v, h, txs).pending
    decreases i
  {
    hide Classify, Examined;
    if i == 0 {
      assert h + Bodies(txs[..0]) == h && txs[0..] == txs;
    } else {
      CountSoFar(v, h, txs, seen, i - 1);
      var k := h + Bodies(txs[..i - 1]);
      ClassifyAt(v, k, txs, i - 1);
      assert k + [txs[i - 1].tx] == h + Bodies(txs[..i]);
      assert seen[..i] == seen[..i - 1] + [seen[i - 1]];
      YieldedAppend(seen[..i - 1], seen[i - 1]);
    }
  }

  /** A sender examined to its end yields as many transactions as its queue has ready ones. */
  lemma {:induction false} ClosedSenderCounts(v: Verdict, h: seq<Tx>, txs: seq<Transaction>, seen: seq<Question>)
    requires AnsweredAlone(v, h, txs, seen) && forall j :: 0 <= j < |seen| - 1 ==> !seen[j].answer.Future?
    requires |seen| == |txs| || (|seen| > 0 && seen[|seen| - 1].answer.Future?)
    ensures ReadyCount(seen) == Classify(v, h, txs).pending
  {
    hide Classify, Examined, AnsweredAlone, ReadyCount;
    AtMostAll(v, h, txs, seen);
    var n := |seen|;
    if n > 0 && seen[n - 1].answer.Future? {
      var k, rest := h + Bodies(txs[..n - 1]), txs[n - 1..];
      assert ReadyCount(seen[..n - 1]) + Classify(v, k, rest).pending == Classify(v, h, txs).pending by { CountSoFar(v, h, txs, seen, n - 1); }
      assert Classify(v, k, rest).pending == 0 && ReadyCount(seen) == ReadyCount(seen[..n - 1]) by { LastFuture(v, h, txs, seen); }
    } else {
      var k, rest := h + Bodies(txs[..n]), txs[n..];
      assert seen[..n] == seen;
      assert ReadyCount(seen) + Classify(v, k, rest).pending == Classify(v, h, txs).pending by { CountSoFar(v, h, txs, seen, n); }
      assert Classify(v, k, rest).pending == 0 by { NothingToClassify(v, k, rest); }
    }
  }

  lemma {:induction false} AtMostAll(v: Verdict, h: seq<Tx>, txs: seq<Transaction>, seen: seq<Question>)
    requires AnsweredAlone(v, h, txs, seen)
    ensures |seen| <= |txs|
  {}

  /** A future transaction ends its sender without being counted. */
  lemma {:induction false} LastFuture(v: Verdict, h: seq<Tx>, txs: seq<Transaction>, seen: seq<Question>)
    requires AnsweredAlone(v, h, txs, seen) && |seen| > 0 && seen[|seen| - 1].answer.Future?
    ensures var n := |seen| - 1;
            n < |txs| && Classify(v, h + Bodies(txs[..n]), txs[n..]).pending == 0 && ReadyCount(seen) == ReadyCount(seen[..n])
  {
    hide Classify, Examined, Bodies;
    var n := |seen| - 1;
    ClassifyAt(v, h + Bodies(txs[..n]), txs, n);
  }

  lemma {:induction false} ClosedSender(v: Verdict, h0: seq<Tx>, qs: Queues, scope: set<Sender>, trace: seq<Question>, best: Index, s: Sender)
    requires RunOk(v, h0, qs, scope, trace, best) && best == map[] && Local(v) && s in scope && s in qs && Homed(qs)
    ensures ReadyCount(Seen(trace, s)) == Classify(v, OfSender(h0, s), QueueAt(qs, s).txs).pending
  {
    hide Local, OfSender, Classify, Greedy, Answered;
    assert InOrder(qs, trace, s);
    var seen, txs := Seen(trace, s), QueueAt(qs, s).txs;
    if |seen| < |txs| {
      assert !IsHead(qs, scope, trace, RankOf(qs[s].scores[|seen|], txs[|seen|]), txs[|seen|]);
    }
    LocalAnswers(v, h0, qs, trace, s);
    ClosedSenderCounts(v, OfSender(h0, s), txs, seen);
  }

  lemma {:induction false} ReadyOverIsPending(v: Verdict, h0: seq<Tx>, qs: Queues, scope: set<Sender>, trace: seq<Question>,
                                              best: Index, order: seq<Sender>)
    requires RunOk(v, h0, qs, scope, trace, best) && best == map[] && Local(v) && Homed(qs)
    requires forall s :: s in order ==> s in scope && s in qs
    ensures ReadyOver(trace, order) == TallyOver(v, h0, qs, order).pending
    decreases |order|
  {
    hide RunOk, Local, Homed, OfSender, Classify;
    if |order| > 0 {
      var front, s := order[..|order| - 1], order[|order| - 1];
      assert order == front + [s];
      ReadyOverIsPending(v, h0, qs, scope, trace, best, front);
      ClosedSender(v, h0, qs, scope, trace, best, s);
    }
  }

  /** An exhausted run over all senders hands out exactly the transactions a full status
      counts as pending, in whatever order that status visits the senders. */
  lemma {:induction false} PendingMatchesStatus(v: Verdict, h0: seq<Tx>, qs: Queues, trace: seq<Question>, best: Index, order: seq<Sender>)
    requires RunOk(v, h0, qs, qs.Keys, trace, best) && best == map[] && Local(v) && Homed(qs) && Lists(order, qs.Keys)
    ensures |Yielded(trace)| == TallyOver(v, h0, qs, order).pending
  {
    hide Local, Homed, TallyOver;
    ReadyOverIsPending(v, h0, qs, qs.Keys, trace, best, order);
    forall k | 0 <= k < |trace| ensures trace[k].t.tx.sender in order {
      assert BestHead(qs, qs.Keys, trace[..k], trace[k].t);
    }
    ReadyBySender(trace, order);
  }

  function TraceHashes(trace: seq<Question>): (hs: set<TxHash>) {
    set q | q in trace :: q.t.tx.hash
  }

  lemma {:induction false} AskedWasSeen(trace: seq<Question>, q: Question)
    requires q in trace
    ensures q in Seen(trace, q.t.tx.sender)
    decreases |trace|
  {
    var front, last := trace[..|trace| - 1], trace[|trace| - 1];
    assert trace == front + [last];
    SeenAppend(front, last, q.t.tx.sender);
    if q != last { AskedWasSeen(front, q); }
  }

  /** No transaction is examined twice. */
  lemma {:induction false} HeadIsNew(sc: Scoring, qs: Queues, scope: set<Sender>, trace: seq<Question>, r: Rank, t: Transaction)
    requires sc.Lawful() && QueuesOk(sc, qs) && DistinctIds(qs)
    requires (forall s :: InOrder(qs, trace, s)) && IsHead(qs, scope, trace, r, t)
    requires forall q :: q in trace ==> Member(qs, q.t)
    ensures t.tx.hash !in TraceHashes(trace)
  {
    HeadIsMember(qs, scope, trace, r, t);
    forall q | q in trace ensures q.t.tx.hash != t.tx.hash {
      var s := t.tx.sender;
      if q.t.tx.sender == s {
        AskedWasSeen(trace, q);
        assert InOrder(qs, trace, s);
        var i :| 0 <= i < |Seen(trace, s)| && Seen(trace, s)[i] == q;
        assert sc.compare(qs[s].txs[i].tx, qs[s].txs[|Seen(trace, s)|].tx).Less?;
      }
      assert q.t != t;
    }
  }

  lemma {:induction false} RunMembers(v: Verdict, h0: seq<Tx>, qs: Queues, scope: set<Sender>, trace: seq<Question>, best: Index)
    requires RunOk(v, h0, qs, scope, trace, best)
    ensures forall q :: q in trace ==> Member(qs, q.t)
  {
    forall k | 0 <= k < |trace| ensures Member(qs, trace[k].t) {
      assert BestHead(qs, scope, trace[..k], trace[k].t);
      var r :| IsHead(qs, scope, trace[..k], r, trace[k].t);
      HeadIsMember(qs, scope, trace[..k], r, trace[k].t);
    }
  }

  /** Before anything is asked, a sender's head is its first transaction. */
  lemma {:induction false} FirstHeads(qs: Queues, scope: set<Sender>, r: Rank, t: Transaction)
    requires Homed(qs)
    ensures IsHead(qs, scope, [], r, t) <==> t.tx.sender in scope && IsEnd(qs, true, r, t)
  {
    assert |Seen([], t.tx.sender)| == 0;
  }

  lemma {:induction false} RunBegins(v: Verdict, h0: seq<Tx>, qs: Queues, scope: set<Sender>, best: Index)
    requires Homed(qs) && forall r, t :: r in best && best[r] == t <==> t.tx.sender in scope && IsEnd(qs, true, r, t)
    ensures RunOk(v, h0, qs, scope, [], best)
  {
    forall r, t ensures r in best && best[r] == t <==> IsHead(qs, scope, [], r, t) { FirstHeads(qs, scope, r, t); }
    forall s ensures InOrder(qs, [], s) { assert |Seen([], s)| == 0; }
  }

  lemma {:induction false} RunBeginsEverywhere(v: Verdict, h0: seq<Tx>, qs: Queues, best: Index)
    requires Homed(qs) && Indexed(best, qs, true)
    ensures RunOk(v, h0, qs, qs.Keys, [], best)
  {
    forall r, t ensures r in best && best[r] == t <==> t.tx.sender in qs.Keys && IsEnd(qs, true, r, t) {
      assert r in best && best[r] == t <==> IsEnd(qs, true, r, t);
    }
    RunBegins(v, h0, qs, qs.Keys, best);
  }

  lemma {:induction false} HeadFacts(sc: Scoring, v: Verdict, h0: seq<Tx>, qs: Queues, scope: set<Sender>, trace: seq<Question>, best: Index, r0: Rank)
    requires RunOk(v, h0, qs, scope, trace, best) && r0 in best && QueuesOk(sc, qs)
    ensures var t := best[r0];
            t.tx.sender in qs && QueueOk(sc, t.tx.sender, qs[t.tx.sender]) && Member(qs, t)
  {
    assert IsHead(qs, scope, trace, r0, best[r0]);
  }

  /** Examining a head uses up one of the pooled hashes. */
  lemma {:induction false} HeadShrinks(sc: Scoring, byHash: map<TxHash, Transaction>, v: Verdict, h0: seq<Tx>, qs: Queues, scope: set<Sender>,
                    trace: seq<Question>, best: Index, r0: Rank)
    requires RunOk(v, h0, qs, scope, trace, best) && r0 in best
    requires sc.Lawful() && QueuesOk(sc, qs) && DistinctIds(qs) && HashExact(byHash, qs)
    ensures forall a :: byHash.Keys - TraceHashes(trace + [Question(best[r0], a)]) < byHash.Keys - TraceHashes(trace)
  {
    var t := best[r0];
    assert IsHead(qs, scope, trace, r0, t);
    HeadIsMember(qs, scope, trace, r0, t);
    RunMembers(v, h0, qs, scope, trace, best);
    HeadIsNew(sc, qs, scope, trace, r0, t);
    hide RunOk, HeadsExact, QueuesOk, DistinctIds, IsHead;
    assert t.tx.hash in byHash.Keys - TraceHashes(trace);
    forall a ensures byHash.Keys - TraceHashes(trace + [Question(t, a)]) < byHash.Keys - TraceHashes(trace) {
      assert TraceHashes(trace + [Question(t, a)]) == TraceHashes(trace) + {t.tx.hash};
    }
  }

  /** The search for the next transaction finds the head's successor. */
  lemma {:induction false} SuccessorFound(sc: Scoring, v: Verdict, h0: seq<Tx>, qs: Queues, scope: set<Sender>, trace: seq<Question>, best: Index,
                       r0: Rank, next: Option<(Score, Transaction)>)
    requires RunOk(v, h0, qs, scope, trace, best) && r0 in best && QueuesOk(sc, qs) && sc.Lawful()
    requires var t := best[r0];
             t.tx.sender in qs &&
             var q := qs[t.tx.sender];
             && |q.txs| == |q.scores|
             && (next.Some? <==> exists k :: 0 <= k < |q.txs| - 1 && sc.compare(q.txs[k].tx, t.tx).Equal?)
             && (forall k :: 0 <= k < |q.txs| - 1 && sc.compare(q.txs[k].tx, t.tx).Equal? ==> next == Some((q.scores[k + 1], q.txs[k + 1])))
    ensures var s := best[r0].tx.sender; next == Successor(qs, s, |Seen(trace, s)| + 1)
  {
    var t := best[r0];
    assert IsHead(qs, scope, trace, r0, t);
    hide RunOk, HeadsExact;
    var s := t.tx.sender;
    var q, p := qs[s], |Seen(trace, s)|;
    SearchIsExact(sc, s, q.txs, t.tx);
    assert sc.compare(q.txs[p].tx, t.tx).Equal?;
  }
}
