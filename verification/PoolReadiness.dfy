/** Readiness over whole queues: what a full status counts, and why the order in which
    senders are visited does not matter when readiness looks at one sender at a time. */
module PoolReadiness {
  import opened Basics
  import opened PoolTypes
  import opened SenderQueue
  import opened PoolIndex

  function OfSender(h: seq<Tx>, s: Sender): (r: seq<Tx>) {
    if |h| == 0 then []
    else
      var rest, last := OfSender(h[..|h| - 1], s), h[|h| - 1];
      if last.sender == s then rest + [last] else rest
  }

  lemma {:induction false} OfSenderAppend(h: seq<Tx>, t: Tx, s: Sender)
    ensures OfSender(h + [t], s) == OfSender(h, s) + if t.sender == s then [t] else []
  {
    assert (h + [t])[..|h|] == h;
  }

  lemma {:induction false} OfSenderConcat(h: seq<Tx>, ts: seq<Tx>, s: Sender, u: Sender)
    requires forall i :: 0 <= i < |ts| ==> ts[i].sender == s
    ensures OfSender(h + ts, u) == OfSender(h, u) + if u == s then ts else []
    decreases |ts|
  {
    if ts == [] {
      assert h + ts == h;
    } else {
      var front, last := ts[..|ts| - 1], ts[|ts| - 1];
      OfSenderConcat(h, front, s, u);
      OfSenderAppend(h + front, last, u);
      assert h + ts == h + front + [last] && ts == front + [last];
    }
  }

  /** The verdict on a transaction depends only on what was asked for its own sender. */
  ghost predicate Local(v: Verdict) {
    forall h, t {:trigger Asks(h, t)} :: v(h, t) == v(OfSender(h, t.sender), t)
  }

  /** Marks the questions on which a proof uses locality. */
  ghost predicate Asks(h: seq<Tx>, t: Tx) { true }

  lemma {:induction false} LocalAt(v: Verdict, h: seq<Tx>, t: Tx)
    requires Local(v)
    ensures v(h, t) == v(OfSender(h, t.sender), t)
  {
    assert Asks(h, t);
  }

  datatype Tally = Tally(stalled: nat, pending: nat, future: nat) {
    function Plus(o: Tally): (r: Tally) {
      Tally(stalled + o.stalled, pending + o.pending, future + o.future)
    }

    function Total(): (n: nat) {
      stalled + pending + future
    }
  }

  /** How one queue splits into stale, ready and future transactions: everything from the
      first future one on is future. */
  function Classify(v: Verdict, h: seq<Tx>, txs: seq<Transaction>): (c: Tally)
    ensures c.Total() == |txs|
    decreases |txs|
  {
    if |txs| == 0 then Tally(0, 0, 0)
    else match v(h, txs[0].tx)
      case Stale => Tally(1, 0, 0).Plus(Classify(v, h + [txs[0].tx], txs[1..]))
      case Ready => Tally(0, 1, 0).Plus(Classify(v, h + [txs[0].tx], txs[1..]))
      case Future => Tally(0, 0, |txs|)
  }

  /** How many transactions a classification looks at. */
  function Examined(v: Verdict, h: seq<Tx>, txs: seq<Transaction>): (n: nat)
    ensures n <= |txs|
    decreases |txs|
  {
    if |txs| == 0 then 0
    else if v(h, txs[0].tx).Future? then 1
    else 1 + Examined(v, h + [txs[0].tx], txs[1..])
  }

  /** Visiting other senders in between does not change how a queue splits. */
  lemma {:induction false} LocalClassify(v: Verdict, h: seq<Tx>, s: Sender, txs: seq<Transaction>)
    requires Local(v) && OneSender(s, txs)
    ensures Classify(v, h, txs) == Classify(v, OfSender(h, s), txs)
    decreases |txs|
  {
    hide Local, OfSender;
    if txs != [] {
      var t, rest := txs[0].tx, txs[1..];
      LocalAt(v, h, t);
      OfSenderAppend(h, t, s);
      LocalClassify(v, h + [t], s, rest);
    }
  }

  lemma {:induction false} LocalStalePrefix(v: Verdict, h: seq<Tx>, s: Sender, txs: seq<Transaction>)
    requires Local(v) && OneSender(s, txs)
    ensures StalePrefix(v, h, txs) == StalePrefix(v, OfSender(h, s), txs)
    decreases |txs|
  {
    hide Local, OfSender;
    if txs != [] {
      var t, rest := txs[0].tx, txs[1..];
      LocalAt(v, h, t);
      OfSenderAppend(h, t, s);
      LocalStalePrefix(v, h + [t], s, rest);
    }
  }

  /** The per-sender classifications added up over a list of senders. */
  ghost function TallyOver(v: Verdict, h: seq<Tx>, qs: Queues, order: seq<Sender>): (c: Tally) {
    if |order| == 0 then Tally(0, 0, 0)
    else
      var s := order[|order| - 1];
      TallyOver(v, h, qs, order[..|order| - 1]).Plus(Classify(v, OfSender(h, s), QueueAt(qs, s).txs))
  }

  /** All transactions of the listed senders, one queue after the other. */
  ghost function Flatten(qs: Queues, order: seq<Sender>): (r: seq<Transaction>) {
    if |order| == 0 then [] else Flatten(qs, order[..|order| - 1]) + QueueAt(qs, order[|order| - 1]).txs
  }

  lemma {:induction false} FlattenMembers(sc: Scoring, qs: Queues, order: seq<Sender>)
    requires sc.Lawful() && QueuesOk(sc, qs) && forall s :: s in order ==> s in qs
    requires Distinct(order)
    ensures forall t :: t in Flatten(qs, order) <==> t.tx.sender in order && Member(qs, t)
    ensures Distinct(Flatten(qs, order))
  {
    if order != [] {
      var front, s := order[..|order| - 1], order[|order| - 1];
      FlattenMembers(sc, qs, front);
      assert order == front + [s];
      HomedMember(sc, qs, s, QueueAt(qs, s));
      var a, b := Flatten(qs, front), QueueAt(qs, s).txs;
      assert forall t :: t in a ==> t.tx.sender != s;
      assert Distinct(b);
      assert forall t :: t in a + b <==> t in a || t in b;
    }
  }

  lemma {:induction false} DistinctCount<T>(s: seq<T>)
    requires Distinct(s)
    ensures |set t | t in s| == |s|
  {
    if s != [] {
      var front, last := s[..|s| - 1], s[|s| - 1];
      DistinctCount(front);
      assert (set t | t in s) == (set t | t in front) + {last};
    }
  }

  /** The queues hold exactly as many transactions as the hash table. */
  lemma {:induction false} CountByHash(sc: Scoring, byHash: map<TxHash, Transaction>, qs: Queues, order: seq<Sender>)
    requires sc.Lawful() && QueuesOk(sc, qs) && HashExact(byHash, qs) && Lists(order, qs.Keys)
    ensures |Flatten(qs, order)| == |byHash|
  {
    FlattenMembers(sc, qs, order);
    var all := Flatten(qs, order);
    var hashes := seq(|all|, i requires 0 <= i < |all| => all[i].tx.hash);
    forall i | 0 <= i < |all| ensures all[i].tx.hash in byHash && byHash[all[i].tx.hash] == all[i] {
      assert all[i] in all;
      assert Member(qs, all[i]);
    }
    DistinctCount(hashes);
    forall h ensures h in byHash <==> h in hashes {
      if h in byHash {
        assert Member(qs, byHash[h]);
        var i :| 0 <= i < |all| && all[i] == byHash[h];
        assert hashes[i] == h;
      }
    }
    assert (set h | h in hashes) == byHash.Keys;
  }

  /** A sender's queue lost exactly its stale prefix. */
  ghost predicate StaleGone(sc: Scoring, v: Verdict, h: seq<Tx>, before: Queues, qs: Queues, s: Sender) {
    var q := QueueAt(before, s);
    |q.txs| == |q.scores| && QueueAt(qs, s) == CutFront(sc, q, StalePrefix(v, OfSender(h, s), q.txs))
  }

  ghost predicate IsSuffix<T>(a: seq<T>, b: seq<T>) {
    |a| <= |b| && a == b[|b| - |a|..]
  }

  /** Asking about one sender's transactions is invisible to the others. */
  lemma {:induction false} AskedElsewhere(h: seq<Tx>, txs: seq<Transaction>, n: nat, s: Sender)
    requires OneSender(s, txs) && n <= |txs|
    ensures forall u :: u != s ==> OfSender(h + Bodies(txs[..n]), u) == OfSender(h, u)
  {
    forall u | u != s ensures OfSender(h + Bodies(txs[..n]), u) == OfSender(h, u) {
      OfSenderConcat(h, Bodies(txs[..n]), s, u);
    }
  }

  /** Culling `s` next: its stale prefix goes and the history gains what was asked. */
  ghost predicate CullsOne(sc: Scoring, v: Verdict, h: seq<Tx>, before: Queues, s: Sender, qs: Queues, h': seq<Tx>) {
    var q, txs := QueueAt(before, s), QueueAt(before, s).txs;
    var n := StalePrefix(v, h, txs);
    && qs - {s} == before - {s} && |q.txs| == |q.scores|
    && QueueAt(qs, s) == CutFront(sc, q, n) && QueueAt(qs, s).txs == txs[n..]
    && h' == h + Bodies(txs[..Asked(n, |txs|)])
  }

  /** Effect of culling one sender on queues and history, seen from every other sender. */
  lemma {:induction false} CulledStep(sc: Scoring, v: Verdict, h: seq<Tx>, before: Queues, s: Sender, qs: Queues, h': seq<Tx>)
    requires CullsOne(sc, v, h, before, s, qs, h') && OneSender(s, QueueAt(before, s).txs)
    ensures forall u :: u != s ==> QueueAt(qs, u) == QueueAt(before, u) && OfSender(h', u) == OfSender(h, u)
    ensures IsSuffix(QueueAt(qs, s).txs, QueueAt(before, s).txs)
  {
    var txs := QueueAt(before, s).txs;
    AskedElsewhere(h, txs, Asked(StalePrefix(v, h, txs), |txs|), s);
    forall u | u != s ensures QueueAt(qs, u) == QueueAt(before, u) {
      assert u in qs <==> u in qs - {s};
      assert u in before <==> u in before - {s};
      if u in before { assert (qs - {s})[u] == qs[u] && (before - {s})[u] == before[u]; }
    }
  }

  /** One sender's view of a cull that has dealt with the senders in `done`. */
  ghost predicate SenderProgress(sc: Scoring, v: Verdict, h0: seq<Tx>, qs0: Queues, qs: Queues, h: seq<Tx>, done: seq<Sender>, u: Sender) {
    && IsSuffix(QueueAt(qs, u).txs, QueueAt(qs0, u).txs)
    && (u !in done ==> QueueAt(qs, u) == QueueAt(qs0, u) && OfSender(h, u) == OfSender(h0, u))
    && (u in done && Local(v) && Distinct(done) ==> StaleGone(sc, v, h0, qs0, qs, u))
  }

  /** Culling has dealt with exactly the senders in `done`: every queue is a suffix of what
      it was, other senders are untouched, and local readiness removes exactly stale prefixes. */
  ghost predicate CullProgress(sc: Scoring, v: Verdict, h0: seq<Tx>, qs0: Queues, qs: Queues, h: seq<Tx>, done: seq<Sender>) {
    forall u :: SenderProgress(sc, v, h0, qs0, qs, h, done, u)
  }

  lemma {:induction false} DistinctPrefix<T>(done: seq<T>, s: T)
    requires Distinct(done + [s])
    ensures Distinct(done) && s !in done
  {
    assert forall i :: 0 <= i < |done| ==> (done + [s])[i] == done[i];
    assert (done + [s])[|done|] == s;
  }

  lemma {:induction false} SuffixOfSuffix<T>(a: seq<T>, n: nat, b: seq<T>)
    requires IsSuffix(a, b) && n <= |a|
    ensures IsSuffix(a[n..], b)
  {}

  lemma {:induction false} OtherAdvances(sc: Scoring, v: Verdict, h0: seq<Tx>, qs0: Queues, qs: Queues, h: seq<Tx>, done: seq<Sender>,
                      s: Sender, qs': Queues, h': seq<Tx>, u: Sender)
    requires SenderProgress(sc, v, h0, qs0, qs, h, done, u) && u != s
    requires QueueAt(qs', u) == QueueAt(qs, u) && OfSender(h', u) == OfSender(h, u)
    ensures SenderProgress(sc, v, h0, qs0, qs', h', done + [s], u)
  {
    hide Local, OfSender, StalePrefix, Distinct, IsSuffix;
    if Distinct(done + [s]) { DistinctPrefix(done, s); }
  }

  lemma {:induction false} SelfAdvances(sc: Scoring, v: Verdict, h0: seq<Tx>, qs0: Queues, qs: Queues, h: seq<Tx>, done: seq<Sender>,
                     s: Sender, qs': Queues, h': seq<Tx>)
    requires SenderProgress(sc, v, h0, qs0, qs, h, done, s) && OneSender(s, QueueAt(qs, s).txs)
    requires CullsOne(sc, v, h, qs, s, qs', h')
    ensures SenderProgress(sc, v, h0, qs0, qs', h', done + [s], s)
  {
    hide Local, OfSender, StalePrefix, Distinct, OneSender, IsSuffix, Bodies, Asked;
    SuffixOfSuffix(QueueAt(qs, s).txs, StalePrefix(v, h, QueueAt(qs, s).txs), QueueAt(qs0, s).txs);
    if Distinct(done + [s]) { DistinctPrefix(done, s); }
    if Local(v) { LocalStalePrefix(v, h, s, QueueAt(qs, s).txs); }
  }

  lemma {:induction false} CullAdvances(sc: Scoring, v: Verdict, h0: seq<Tx>, qs0: Queues, qs: Queues, h: seq<Tx>, done: seq<Sender>,
                     s: Sender, qs': Queues, h': seq<Tx>)
    requires CullProgress(sc, v, h0, qs0, qs, h, done) && OneSender(s, QueueAt(qs, s).txs)
    requires CullsOne(sc, v, h, qs, s, qs', h')
    ensures CullProgress(sc, v, h0, qs0, qs', h', done + [s])
  {
    hide SenderProgress, OneSender, CullsOne, OfSender, IsSuffix;
    CulledStep(sc, v, h, qs, s, qs', h');
    forall u ensures SenderProgress(sc, v, h0, qs0, qs', h', done + [s], u) {
      if u == s { SelfAdvances(sc, v, h0, qs0, qs, h, done, s, qs', h'); }
      else { OtherAdvances(sc, v, h0, qs0, qs, h, done, s, qs', h', u); }
    }
  }

  lemma {:induction false} CullBegins(sc: Scoring, v: Verdict, h: seq<Tx>, qs: Queues)
    ensures CullProgress(sc, v, h, qs, qs, h, [])
  {}

  lemma {:induction false} CullsAbsent(sc: Scoring, v: Verdict, h: seq<Tx>, qs: Queues, s: Sender)
    requires s !in qs
    ensures CullsOne(sc, v, h, qs, s, qs, h) && StalePrefix(v, h, QueueAt(qs, s).txs) == 0
  {
    assert h + Bodies([]) == h;
  }

  lemma {:induction false} SenderOf(sc: Scoring, qs: Queues, s: Sender)
    requires QueuesOk(sc, qs)
    ensures OneSender(s, QueueAt(qs, s).txs)
  {}

  /** A status scan over `done`: its counts, and what it asked, seen from the other senders. */
  ghost predicate StatusProgress(v: Verdict, h0: seq<Tx>, qs: Queues, h: seq<Tx>, done: seq<Sender>, c: Tally) {
    && c.Total() == |Flatten(qs, done)|
    && (Local(v) ==> c == TallyOver(v, h0, qs, done))
    && (forall u :: u !in done ==> OfSender(h, u) == OfSender(h0, u))
  }

  /** What the check answers for transaction `i` when the queue is asked in order. */
  function AnswerAt(v: Verdict, h: seq<Tx>, txs: seq<Transaction>, i: nat): (r: Readiness)
    requires i < |txs|
  {
    v(h + Bodies(txs[..i]), txs[i].tx)
  }

  /** How many of the first `n` answers are `r`. */
  function CountAnswers(v: Verdict, h: seq<Tx>, txs: seq<Transaction>, n: nat, r: Readiness): (c: nat)
    requires n <= |txs|
  {
    if n == 0 then 0 else CountAnswers(v, h, txs, n - 1, r) + if AnswerAt(v, h, txs, n - 1) == r then 1 else 0
  }

  lemma {:induction false} ClassifyUpTo(v: Verdict, h: seq<Tx>, txs: seq<Transaction>, n: nat)
    requires n <= |txs| && forall i :: 0 <= i < n ==> !AnswerAt(v, h, txs, i).Future?
    ensures Classify(v, h, txs) ==
              Tally(CountAnswers(v, h, txs, n, Stale), CountAnswers(v, h, txs, n, Ready), 0).Plus(Classify(v, h + Bodies(txs[..n]), txs[n..]))
    decreases n
  {
    hide Classify, Examined;
    if n == 0 {
      assert h + Bodies(txs[..0]) == h && txs[0..] == txs;
    } else {
      ClassifyUpTo(v, h, txs, n - 1);
      var k := h + Bodies(txs[..n - 1]);
      ClassifyAt(v, k, txs, n - 1);
      assert AnswerAt(v, h, txs, n - 1) == v(k, txs[n - 1].tx);
      assert k + [txs[n - 1].tx] == h + Bodies(txs[..n]);
    }
  }

  /** A classification counts the stale and the ready answers before the first future one, and
      everything from that one on as future. */
  lemma {:induction false} ClassifyCounts(v: Verdict, h: seq<Tx>, txs: seq<Transaction>, n: nat)
    requires n <= |txs| && (forall i :: 0 <= i < n ==> !AnswerAt(v, h, txs, i).Future?)
    requires n < |txs| ==> AnswerAt(v, h, txs, n).Future?
    ensures Classify(v, h, txs) == Tally(CountAnswers(v, h, txs, n, Stale), CountAnswers(v, h, txs, n, Ready), |txs| - n)
  {
    hide Classify, Examined, CountAnswers, AnswerAt;
    var k, rest := h + Bodies(txs[..n]), txs[n..];
    var c := Tally(CountAnswers(v, h, txs, n, Stale), CountAnswers(v, h, txs, n, Ready), 0);
    assert Classify(v, h, txs) == c.Plus(Classify(v, k, rest)) by { ClassifyUpTo(v, h, txs, n); }
    assert Classify(v, k, rest) == Tally(0, 0, |txs| - n) by {
      if n < |txs| { FutureRest(v, h, txs, n); } else { NothingToClassify(v, k, rest); }
    }
  }

  lemma {:induction false} FutureRest(v: Verdict, h: seq<Tx>, txs: seq<Transaction>, n: nat)
    requires n < |txs| && AnswerAt(v, h, txs, n).Future?
    ensures Classify(v, h + Bodies(txs[..n]), txs[n..]) == Tally(0, 0, |txs| - n)
  {
    hide Classify, Examined;
    ClassifyAt(v, h + Bodies(txs[..n]), txs, n);
  }

  lemma {:induction false} NothingToClassify(v: Verdict, h: seq<Tx>, txs: seq<Transaction>)
    requires |txs| == 0
    ensures Classify(v, h, txs) == Tally(0, 0, 0)
  {}

  lemma {:induction false} OverAppend(v: Verdict, h: seq<Tx>, qs: Queues, done: seq<Sender>, s: Sender)
    ensures Flatten(qs, done + [s]) == Flatten(qs, done) + QueueAt(qs, s).txs
    ensures TallyOver(v, h, qs, done + [s]) == TallyOver(v, h, qs, done).Plus(Classify(v, OfSender(h, s), QueueAt(qs, s).txs))
  {
    hide Classify, OfSender;
    assert (done + [s])[..|done|] == done;
  }

  /** One unfolding of a classification in the middle of a queue. */
  lemma {:induction false} ClassifyAt(v: Verdict, h: seq<Tx>, txs: seq<Transaction>, i: nat)
    requires i < |txs|
    ensures var h', rest := h + [txs[i].tx], txs[i + 1..];
            match v(h, txs[i].tx)
            case Stale =>
              && Classify(v, h, txs[i..]) == Tally(1, 0, 0).Plus(Classify(v, h', rest))
              && Examined(v, h, txs[i..]) == 1 + Examined(v, h', rest)
            case Ready =>
              && Classify(v, h, txs[i..]) == Tally(0, 1, 0).Plus(Classify(v, h', rest))
              && Examined(v, h, txs[i..]) == 1 + Examined(v, h', rest)
            case Future =>
              Classify(v, h, txs[i..]) == Tally(0, 0, |txs| - i) && Examined(v, h, txs[i..]) == 1
  {
    assert txs[i..][0] == txs[i] && txs[i..][1..] == txs[i + 1..];
  }

  lemma {:induction false} CountDone(v: Verdict, h: seq<Tx>, txs: seq<Transaction>, k: seq<Tx>, c: Tally)
    requires c.Plus(Classify(v, k, txs[|txs|..])) == Classify(v, h, txs)
    requires |txs| + Examined(v, k, txs[|txs|..]) == Examined(v, h, txs)
    ensures c == Classify(v, h, txs) && Examined(v, h, txs) == |txs|
  {
  }

  lemma {:induction false} StatusAdvances(v: Verdict, h0: seq<Tx>, qs: Queues, h: seq<Tx>, done: seq<Sender>, c: Tally,
                       s: Sender, h': seq<Tx>, c': Tally)
    requires StatusProgress(v, h0, qs, h, done, c) && s !in done && OneSender(s, QueueAt(qs, s).txs)
    requires var txs := QueueAt(qs, s).txs;
             h' == h + Bodies(txs[..Examined(v, h, txs)]) && c' == Classify(v, h, txs)
    ensures StatusProgress(v, h0, qs, h', done + [s], c.Plus(c'))
  {
    hide Local, OfSender, Classify, Examined, Flatten, TallyOver, Bodies, OneSender;
    var txs := QueueAt(qs, s).txs;
    OverAppend(v, h0, qs, done, s);
    AskedElsewhere(h, txs, Examined(v, h, txs), s);
    if Local(v) { LocalClassify(v, h, s, txs); }
  }

  lemma {:induction false} StatusBegins(v: Verdict, h: seq<Tx>, qs: Queues)
    ensures StatusProgress(v, h, qs, h, [], Tally(0, 0, 0))
  {}
}
