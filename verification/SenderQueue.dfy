/** One sender's transactions, kept strictly sorted by the scoring's `compare`
    beside a score vector of the same length. */
module SenderQueue {
  import opened Basics
  import opened PoolTypes

  datatype Queue = Queue(txs: seq<Transaction>, scores: seq<Score>)

  datatype AddResult =
    | AddOk(tx: Transaction)
    | TooCheapToEnter(tx: Transaction, minScore: Score)
    | TooCheap(old_: Transaction, new_: Transaction)
    | Replaced(old_: Transaction, new_: Transaction)
    | PushedOut(old_: Transaction, new_: Transaction)
  {
    predicate Accepted() {
      AddOk? || Replaced? || PushedOut?
    }

    function Incoming(): (t: Transaction) {
      match this
      case AddOk(t) => t
      case TooCheapToEnter(t, _) => t
      case TooCheap(_, t) => t
      case Replaced(_, t) => t
      case PushedOut(_, t) => t
    }

    /** The transaction that had to leave for the new one. */
    function Displaced(): (r: Option<Transaction>) {
      if Replaced? || PushedOut? then Some(old_) else None
    }
  }

  /** The last (`worst`) and first (`best`) transaction of a queue with their scores. */
  datatype Ends = Ends(worst: (Score, Transaction), best: (Score, Transaction))

  function EndsOf(q: Queue): (r: Option<Ends>)
    requires |q.txs| == |q.scores|
  {
    var n := |q.txs|;
    if n == 0 then None
    else Some(Ends((q.scores[n - 1], q.txs[n - 1]), (q.scores[0], q.txs[0])))
  }

  ghost predicate Sorted(sc: Scoring, txs: seq<Transaction>) {
    forall i, j :: 0 <= i < j < |txs| ==> sc.compare(txs[i].tx, txs[j].tx).Less?
  }

  ghost predicate OneSender(s: Sender, txs: seq<Transaction>) {
    forall i :: 0 <= i < |txs| ==> txs[i].tx.sender == s
  }

  ghost predicate QueueOk(sc: Scoring, s: Sender, q: Queue) {
    |q.txs| == |q.scores| && OneSender(s, q.txs) && Sorted(sc, q.txs)
  }

  function Drop<T>(s: seq<T>, i: nat): (r: seq<T>)
    requires i < |s|
  {
    s[..i] + s[i + 1..]
  }

  /** The queue without its slot `k`, rescored. */
  function Without(sc: Scoring, q: Queue, k: nat): (r: Queue)
    requires k < |q.txs| == |q.scores|
  {
    Queue(Drop(q.txs, k), sc.updateScores(Drop(q.txs, k), Drop(q.scores, k), RemovedAt(k)))
  }

  lemma {:induction false} WithoutTxs(sc: Scoring, q: Queue, k: nat)
    requires k < |q.txs| == |q.scores|
    ensures Without(sc, q, k).txs == Drop(q.txs, k)
  {}

  /** The queue without its first `n` transactions, rescored if any are gone. */
  function CutFront(sc: Scoring, q: Queue, n: nat): (r: Queue)
    requires n <= |q.txs| == |q.scores|
  {
    if n == 0 then q
    else if n == |q.txs| then Queue([], [])
    else Queue(q.txs[n..], sc.updateScores(q.txs[n..], q.scores[n..], Culled(n)))
  }

  /** Where a binary search for `t` ends: the first position not ordered before it. */
  function LowerBound(sc: Scoring, txs: seq<Transaction>, t: Tx): (i: nat)
    ensures i <= |txs|
    ensures forall j :: 0 <= j < i ==> sc.compare(txs[j].tx, t).Less?
    ensures i < |txs| ==> !sc.compare(txs[i].tx, t).Less?
  {
    if |txs| == 0 || !sc.compare(txs[0].tx, t).Less? then 0
    else 1 + LowerBound(sc, txs[1..], t)
  }

  predicate Occupied(sc: Scoring, txs: seq<Transaction>, t: Tx) {
    var i := LowerBound(sc, txs, t);
    i < |txs| && sc.compare(txs[i].tx, t).Equal?
  }

  /** In a sorted queue a search hits a transaction iff some slot compares equal, and
      that slot is the only one. */
  lemma {:induction false} SearchIsExact(sc: Scoring, s: Sender, txs: seq<Transaction>, t: Tx)
    requires sc.Lawful() && Sorted(sc, txs) && OneSender(s, txs) && t.sender == s
    ensures forall j :: LowerBound(sc, txs, t) < j < |txs| ==> sc.compare(txs[j].tx, t).Greater?
    ensures forall k :: 0 <= k < |txs| && sc.compare(txs[k].tx, t).Equal? ==> k == LowerBound(sc, txs, t)
  {
    var i := LowerBound(sc, txs, t);
    forall j | i < j < |txs|
      ensures sc.compare(txs[j].tx, t).Greater?
    {
      assert sc.compare(txs[i].tx, txs[j].tx).Less?;
      assert !sc.compare(t, txs[i].tx).Greater?;
      assert sc.Chain(t, txs[i].tx, txs[j].tx);
    }
  }

  /** A member is found at its own position. */
  lemma {:induction false} SearchFindsMember(sc: Scoring, s: Sender, txs: seq<Transaction>, k: nat)
    requires sc.Lawful() && Sorted(sc, txs) && OneSender(s, txs) && k < |txs|
    ensures LowerBound(sc, txs, txs[k].tx) == k && Occupied(sc, txs, txs[k].tx)
  {
    SearchIsExact(sc, s, txs, txs[k].tx);
    assert sc.compare(txs[k].tx, txs[k].tx).Equal?;
  }

  /** Putting `t` at its search position, beside or instead of the slot found there,
      keeps the queue strictly sorted; keeping both needs the slot to be free. */
  lemma {:induction false} InsertKeepsSorted(sc: Scoring, s: Sender, txs: seq<Transaction>, t: Transaction)
    requires sc.Lawful() && Sorted(sc, txs) && OneSender(s, txs) && t.tx.sender == s
    ensures var i := LowerBound(sc, txs, t.tx);
            (!Occupied(sc, txs, t.tx) ==> Sorted(sc, Insert(txs, i, t)) && OneSender(s, Insert(txs, i, t)))
            && (i < |txs| ==> Sorted(sc, txs[i := t]) && OneSender(s, txs[i := t]))
  {
    var i := LowerBound(sc, txs, t.tx);
    SearchIsExact(sc, s, txs, t.tx);
    if !Occupied(sc, txs, t.tx) {
      var u := Insert(txs, i, t);
      forall a, b | 0 <= a < b < |u| ensures sc.compare(u[a].tx, u[b].tx).Less? {
        if b == i {
        } else if a == i {
          assert u[b] == txs[b - 1];
          assert sc.compare(txs[b - 1].tx, t.tx).Greater?;
        } else {
          var a', b' := if a < i then a else a - 1, if b < i then b else b - 1;
          assert u[a] == txs[a'] && u[b] == txs[b'];
        }
      }
    }
    if i < |txs| {
      var u := txs[i := t];
      forall a, b | 0 <= a < b < |u| ensures sc.compare(u[a].tx, u[b].tx).Less? {
        if a == i { assert sc.compare(txs[b].tx, t.tx).Greater?; }
      }
    }
  }

  /** Length of the longest stale prefix, asking in order from a given history. */
  function StalePrefix(verdict: Verdict, history: seq<Tx>, txs: seq<Transaction>): (n: nat)
    ensures n <= |txs|
    decreases |txs|
  {
    if |txs| == 0 || !verdict(history, txs[0].tx).Stale? then 0
    else 1 + StalePrefix(verdict, history + [txs[0].tx], txs[1..])
  }

  function Bodies(txs: seq<Transaction>): (r: seq<Tx>)
    ensures |r| == |txs| && forall i :: 0 <= i < |txs| ==> r[i] == txs[i].tx
  {
    seq(|txs|, i requires 0 <= i < |txs| => txs[i].tx)
  }

  /** `n` is the stale prefix as soon as everything before `n` is stale and `n` is not. */
  lemma {:induction false} StalePrefixUnique(verdict: Verdict, history: seq<Tx>, txs: seq<Transaction>, n: nat)
    requires n <= |txs|
    requires forall i :: 0 <= i < n ==> verdict(history + Bodies(txs[..i]), txs[i].tx).Stale?
    requires n < |txs| ==> !verdict(history + Bodies(txs[..n]), txs[n].tx).Stale?
    ensures StalePrefix(verdict, history, txs) == n
    decreases n
  {
    if n == 0 {
      assert history + Bodies(txs[..0]) == history;
    } else {
      assert history + Bodies(txs[..0]) == history;
      var h, rest := history + [txs[0].tx], txs[1..];
      forall i | 0 <= i < |txs|
        ensures i > 0 ==> h + Bodies(rest[..i - 1]) == history + Bodies(txs[..i])
      {
        if i > 0 { assert txs[..i] == [txs[0]] + rest[..i - 1]; }
      }
      forall i | 0 <= i < n - 1 ensures verdict(h + Bodies(rest[..i]), rest[i].tx).Stale? {
        assert h + Bodies(rest[..i]) == history + Bodies(txs[..i + 1]);
      }
      StalePrefixUnique(verdict, h, rest, n - 1);
    }
  }

  lemma {:induction false} LawfulLengths(sc: Scoring)
    requires sc.Lawful()
    ensures forall txs, scores, change :: |txs| == |scores| ==> |sc.updateScores(txs, scores, change)| == |scores|
  {}

  class Transactions {
    var transactions: seq<Transaction>
    var scores: seq<Score>

    function View(): (q: Queue)
      reads this
    {
      Queue(transactions, scores)
    }

    ghost predicate Valid(sc: Scoring, s: Sender)
      reads this
    {
      QueueOk(sc, s, View())
    }

    /** Borrows the vectors stored for a sender. */
    constructor (q: Queue)
      ensures View() == q
    {
      transactions, scores := q.txs, q.scores;
    }

    method WorstAndBest() returns (r: Option<Ends>)
      requires |transactions| == |scores|
      ensures r == EndsOf(View())
    {
      var len := |scores|;
      if len == 0 { return None; }
      var best, worst := scores[0], scores[len - 1];
      r := Some(Ends((worst, transactions[len - 1]), (best, transactions[0])));
    }

    /** The transaction that follows `tx` in this queue, if `tx` is here and has one. */
    method FindNext(sc: Scoring, tx: Tx) returns (r: Option<(Score, Transaction)>)
      requires sc.Lawful() && Valid(sc, tx.sender)
      ensures r.Some? <==> exists k :: 0 <= k < |transactions| - 1 && sc.compare(transactions[k].tx, tx).Equal?
      ensures forall k :: 0 <= k < |transactions| - 1 && sc.compare(transactions[k].tx, tx).Equal? ==>
                            r == Some((scores[k + 1], transactions[k + 1]))
    {
      SearchIsExact(sc, tx.sender, transactions, tx);
      var index := LowerBound(sc, transactions, tx);
      if index == |transactions| || !sc.compare(transactions[index].tx, tx).Equal? { return None; }
      index := index + 1;
      if index < |scores| {
        r := Some((scores[index], transactions[index]));
      } else {
        r := None;
      }
    }

    method PushCheapestTransaction(sc: Scoring, tx: Transaction, maxCount: nat) returns (r: AddResult)
      requires sc.Lawful() && |transactions| == |scores|
      requires maxCount > 0 || |transactions| > 0 || sc.ignoresSenderLimit(tx.tx)
      modifies this
      ensures var n := |old(transactions)|;
              if n == maxCount && !sc.ignoresSenderLimit(tx.tx) then
                r == TooCheapToEnter(tx, old(scores)[n - 1]) && View() == old(View())
              else
                && r == AddOk(tx)
                && transactions == old(transactions) + [tx]
                && scores == sc.updateScores(transactions, old(scores) + [0], InsertedAt(n))
    {
      var index := |transactions|;
      if index == maxCount && !sc.ignoresSenderLimit(tx.tx) {
        r := TooCheapToEnter(tx, scores[index - 1]);
      } else {
        transactions := transactions + [tx];
        scores := scores + [0];
        scores := sc.updateScores(transactions, scores, InsertedAt(index));
        r := AddOk(tx);
      }
    }

    method UpdateScores(sc: Scoring, event: int, ghost s: Sender)
      requires sc.Lawful() && Valid(sc, s)
      modifies this`scores
      ensures Valid(sc, s) && scores == sc.updateScores(transactions, old(scores), Event(event))
    {
      scores := sc.updateScores(transactions, scores, Event(event));
    }

    /** Keeps `new_` beside the slot at `index`, pushing the last one out of a full queue. */
    method InsertAt(sc: Scoring, new_: Transaction, index: nat, maxCount: nat) returns (r: AddResult)
      requires sc.Lawful() && |transactions| == |scores| && index < |transactions|
      modifies this
      ensures var n, grown := |old(transactions)|, Insert(old(transactions), index, new_);
              var filled := sc.updateScores(grown, Insert(old(scores), index, 0), InsertedAt(index));
              && |filled| == |grown|
              && if |grown| > maxCount then
                   && r == PushedOut(old(transactions)[n - 1], new_)
                   && View() == Queue(grown[..n], sc.updateScores(grown[..n], filled[..n], RemovedAt(n)))
                 else
                   r == AddOk(new_) && View() == Queue(grown, filled)
    {
      transactions := Insert(transactions, index, new_);
      scores := Insert(scores, index, 0);
      scores := sc.updateScores(transactions, scores, InsertedAt(index));
      if |transactions| > maxCount {
        var last := transactions[|transactions| - 1];
        transactions := transactions[..|transactions| - 1];
        scores := scores[..|scores| - 1];
        scores := sc.updateScores(transactions, scores, RemovedAt(|transactions|));
        r := PushedOut(last, new_);
      } else {
        r := AddOk(new_);
      }
    }

    method Add(sc: Scoring, new_: Transaction, maxCount: nat) returns (r: AddResult)
      requires sc.Lawful() && Valid(sc, new_.tx.sender)
      requires maxCount > 0 || |transactions| > 0 || sc.ignoresSenderLimit(new_.tx)
      modifies this
      ensures Valid(sc, new_.tx.sender)
      ensures AddOutcome(sc, old(View()), new_, maxCount, View(), r)
    {
      hide LowerBound, Scoring.Lawful, Sorted, OneSender;
      LawfulLengths(sc);
      var index := LowerBound(sc, transactions, new_.tx);
      if index == |transactions| {
        assert Insert(transactions, index, new_) == transactions + [new_];
        assert Insert(scores, index, 0) == scores + [0];
        r := PushCheapestTransaction(sc, new_, maxCount);
      } else {
        match sc.choose(transactions[index].tx, new_.tx)
        case RejectNew =>
          r := TooCheap(transactions[index], new_);
        case InsertNew =>
          r := InsertAt(sc, new_, index, maxCount);
        case ReplaceOld =>
          var old_ := transactions[index];
          transactions := transactions[index := new_];
          scores := sc.updateScores(transactions, scores, ReplacedAt(index));
          r := Replaced(old_, new_);
      }
      AddKeepsQueueOk(sc, old(View()), new_, maxCount, View(), r);
    }

    /** Removes the slot occupied by `tx`, if there is one. */
    method Remove(sc: Scoring, tx: Tx) returns (found: bool)
      requires sc.Lawful() && Valid(sc, tx.sender)
      modifies this
      ensures Valid(sc, tx.sender)
      ensures found <==> exists k :: 0 <= k < |old(transactions)| && sc.compare(old(transactions)[k].tx, tx).Equal?
      ensures !found ==> View() == old(View())
      ensures forall k :: 0 <= k < |old(transactions)| && sc.compare(old(transactions)[k].tx, tx).Equal? ==>
                            && transactions == Drop(old(transactions), k)
                            && scores == sc.updateScores(transactions, Drop(old(scores), k), RemovedAt(k))
    {
      SearchIsExact(sc, tx.sender, transactions, tx);
      var index := LowerBound(sc, transactions, tx);
      if index == |transactions| || !sc.compare(transactions[index].tx, tx).Equal? { return false; }
      transactions := Drop(transactions, index);
      scores := Drop(scores, index);
      scores := sc.updateScores(transactions, scores, RemovedAt(index));
      found := true;
    }

    /** Asks in order until the first transaction that is not stale. */
    method CountStalled(ready: ReadyCheck) returns (n: nat)
      modifies ready
      ensures n == StalePrefix(ready.verdict, old(ready.history), transactions)
      ensures ready.history == old(ready.history) + Bodies(transactions[..Asked(n, |transactions|)])
    {
      n := 0;
      ghost var history := ready.history;
      while n < |transactions|
        invariant 0 <= n <= |transactions|
        invariant ready.history == history + Bodies(transactions[..n])
        invariant forall i :: 0 <= i < n ==> ready.verdict(history + Bodies(transactions[..i]), transactions[i].tx).Stale?
      {
        var r := ready.IsReady(transactions[n].tx);
        assert ready.history == history + Bodies(transactions[..n + 1]);
        if !r.Stale? { break; }
        n := n + 1;
      }
      StalePrefixUnique(ready.verdict, history, transactions, n);
    }

    /** Reverses both vectors, pops `n` entries and reverses back. */
    method PopFront(n: nat) returns (result: seq<Transaction>)
      requires n <= |transactions| == |scores|
      modifies this
      ensures result == old(transactions)[..n]
      ensures View() == Queue(old(transactions)[n..], old(scores)[n..])
    {
      result := [];
      transactions := Reverse(transactions);
      scores := Reverse(scores);
      var popped := 0;
      while popped < n
        invariant 0 <= popped <= n
        invariant transactions == Reverse(old(transactions))[..|old(transactions)| - popped]
        invariant scores == Reverse(old(scores))[..|old(scores)| - popped]
        invariant result == old(transactions)[..popped]
      {
        scores := scores[..|scores| - 1];
        result := result + [transactions[|transactions| - 1]];
        transactions := transactions[..|transactions| - 1];
        popped := popped + 1;
      }
      transactions := Reverse(transactions);
      scores := Reverse(scores);
    }

    /** Drops the longest stale prefix, keeps the rest in order and hands the dropped
        transactions back, last one first. */
    method Cull(sc: Scoring, ready: ReadyCheck, ghost s: Sender) returns (result: seq<Transaction>)
      requires sc.Lawful() && Valid(sc, s)
      modifies this, ready
      ensures Valid(sc, s)
      ensures var n := StalePrefix(ready.verdict, old(ready.history), old(transactions));
              && result == Reverse(old(transactions)[..n])
              && transactions == old(transactions)[n..]
              && scores == (if n == 0 then old(scores) else sc.updateScores(transactions, old(scores)[n..], Culled(n)))
              && ready.history == old(ready.history) + Bodies(old(transactions)[..Asked(n, |old(transactions)|)])
    {
      result := [];
      var firstNonStalled := CountStalled(ready);
      if firstNonStalled == 0 { return; }
      result := PopFront(firstNonStalled);
      scores := sc.updateScores(transactions, scores, Culled(|result|));
      result := Reverse(result);
    }
  }

  /** Every outcome of an addition leaves the queue strictly sorted and of one sender. */
  lemma {:induction false} AddKeepsQueueOk(sc: Scoring, q: Queue, new_: Transaction, maxCount: nat, q': Queue, r: AddResult)
    requires sc.Lawful() && QueueOk(sc, new_.tx.sender, q)
    requires AddOutcome(sc, q, new_, maxCount, q', r)
    ensures QueueOk(sc, new_.tx.sender, q')
  {
    InsertKeepsSorted(sc, new_.tx.sender, q.txs, new_);
  }

  ghost predicate QueueFits(fits: (Tx, Score) -> bool, q: Queue) {
    Fitting(fits, q.txs, q.scores, None)
  }

  lemma {:induction false} TracksAt(sc: Scoring, fits: (Tx, Score) -> bool, txs: seq<Transaction>, scores: seq<Score>, change: Change)
    requires sc.Tracks(fits) && Fitting(fits, txs, scores, change.Unscored())
    ensures Fitting(fits, txs, sc.updateScores(txs, scores, change), None)
  {}

  /** Taking a slot out leaves every score with its transaction. */
  lemma {:induction false} DroppingFits(sc: Scoring, fits: (Tx, Score) -> bool, q: Queue, k: nat)
    requires sc.Tracks(fits) && QueueFits(fits, q) && k < |q.txs|
    ensures QueueFits(fits, Without(sc, q, k))
  {
    hide Scoring.Tracks;
    TracksAt(sc, fits, Drop(q.txs, k), Drop(q.scores, k), RemovedAt(k));
  }

  /** So does cutting a prefix off. */
  lemma {:induction false} CuttingFits(sc: Scoring, fits: (Tx, Score) -> bool, q: Queue, n: nat)
    requires sc.Tracks(fits) && QueueFits(fits, q) && n <= |q.txs|
    ensures QueueFits(fits, CutFront(sc, q, n))
  {
    hide Scoring.Tracks;
    TracksAt(sc, fits, q.txs[n..], q.scores[n..], Culled(n));
  }

  /** So does every outcome of an addition. */
  lemma {:induction false} AddingFits(sc: Scoring, fits: (Tx, Score) -> bool, q: Queue, new_: Transaction, maxCount: nat, q': Queue, r: AddResult)
    requires sc.Tracks(fits) && QueueFits(fits, q) && AddOutcome(sc, q, new_, maxCount, q', r)
    ensures QueueFits(fits, q')
  {
    hide LowerBound, Scoring.Tracks;
    var i := LowerBound(sc, q.txs, new_.tx);
    var grown, slots := Insert(q.txs, i, new_), Insert(q.scores, i, 0);
    TracksAt(sc, fits, grown, slots, InsertedAt(i));
    var filled := sc.updateScores(grown, slots, InsertedAt(i));
    match r
    case Replaced(_, _) => TracksAt(sc, fits, q.txs[i := new_], q.scores, ReplacedAt(i));
    case PushedOut(_, _) => TracksAt(sc, fits, grown[..|q.txs|], filled[..|q.txs|], RemovedAt(|q.txs|));
    case _ =>
  }

  /** How many transactions a search for the stale prefix of length `n` asks about. */
  function Asked(n: nat, len: nat): (k: nat)
    requires n <= len
    ensures k <= len
  {
    if n < len then n + 1 else n
  }

  /** How a queue answers a new transaction, case by case, around the search position. */
  ghost predicate AddOutcome(sc: Scoring, q: Queue, new_: Transaction, maxCount: nat, q': Queue, r: AddResult)
    requires |q.txs| == |q.scores|
  {
    var i := LowerBound(sc, q.txs, new_.tx);
    var atEnd := i == |q.txs|;
    var grown, slots := Insert(q.txs, i, new_), Insert(q.scores, i, 0);
    var filled := sc.updateScores(grown, slots, InsertedAt(i));
    match r
    case TooCheapToEnter(t, score) =>
      && t == new_ && q' == q && atEnd && i == maxCount > 0 && !sc.ignoresSenderLimit(new_.tx)
      && score == q.scores[i - 1]
    case TooCheap(o, t) =>
      t == new_ && q' == q && !atEnd && o == q.txs[i] && sc.choose(o.tx, new_.tx).RejectNew?
    case Replaced(o, t) =>
      && t == new_ && !atEnd && o == q.txs[i] && sc.choose(o.tx, new_.tx).ReplaceOld?
      && q' == Queue(q.txs[i := new_], sc.updateScores(q.txs[i := new_], q.scores, ReplacedAt(i)))
    case AddOk(t) =>
      && t == new_ && q' == Queue(grown, filled)
      && (if atEnd then i != maxCount || sc.ignoresSenderLimit(new_.tx)
          else sc.choose(q.txs[i].tx, new_.tx).InsertNew? && |grown| <= maxCount)
    case PushedOut(o, t) =>
      var kept := grown[..|q.txs|];
      && t == new_ && !atEnd && sc.choose(q.txs[i].tx, new_.tx).InsertNew? && |grown| > maxCount
      && o == q.txs[|q.txs| - 1]
      && |filled| == |grown|
      && q' == Queue(kept, sc.updateScores(kept, filled[..|q.txs|], RemovedAt(|q.txs|)))
  }
}
