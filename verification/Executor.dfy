/** Executing the transfers of a block against the ledger. */
module Executor {
  import opened Basics
  import opened StateStore
  import opened Ledger

  const TRANSFER_FEE: nat := 10000

  datatype Tx = Tx(from: Address, to: Address, nonce: nat, value: Amount, signed: bool)

  datatype TxError = BadSignature | InvalidTxNonce | BalanceNotEnough

  datatype Outcome = Executed(state: Contents) | Failed(error: TxError)

  /** The checks on a transaction, in order; none of them fails for an acceptable one. */
  function Check(m: Contents, tx: Tx): (r: Option<TxError>) {
    if !tx.signed then Some(BadSignature)
    else if tx.nonce != Inc64(Load(m, tx.from).nonce) then Some(InvalidTxNonce)
    else if Add128(tx.value, TRANSFER_FEE) > Load(m, tx.from).balance then Some(BalanceNotEnough)
    else None
  }

  function ExecTransfer(m: Contents, tx: Tx): (r: Outcome) {
    if Check(m, tx).Some? then Failed(Check(m, tx).value)
    else Executed(Transfer(IncNonce(SubBalance(m, tx.from, TRANSFER_FEE), tx.from), tx.from, tx.to, tx.value))
  }

  /** Runs the transactions in order, crediting the fee to the miner after each; stops at
      the first failure. */
  function ExecBlock(m: Contents, txs: seq<Tx>, miner: Address): (r: Outcome)
    decreases |txs|
  {
    if |txs| == 0 then Executed(m)
    else
      var first := ExecTransfer(m, txs[0]);
      if first.Failed? then first else ExecBlock(AddBalance(first.state, miner, TRANSFER_FEE), txs[1..], miner)
  }

  /** What is wrong with a transaction when the given error is reported: a bad signature first,
      then a nonce that is not the next one, then a balance below value plus fee, of which both
      are counted modulo a power of two. */
  ghost predicate WrongWith(m: Contents, tx: Tx, error: TxError) {
    var account := Load(m, tx.from);
    match error
    case BadSignature => !tx.signed
    case InvalidTxNonce => tx.signed && tx.nonce != (account.nonce + 1) % TWO_64
    case BalanceNotEnough =>
      tx.signed && tx.nonce == (account.nonce + 1) % TWO_64 && (tx.value + TRANSFER_FEE) % TWO_128 > account.balance
  }

  /** A transaction is executed exactly when it is signed, carries the next nonce and is covered
      up to wrap-around. */
  ghost predicate Acceptable(m: Contents, tx: Tx) {
    && tx.signed && tx.nonce == (Load(m, tx.from).nonce + 1) % TWO_64
    && (tx.value + TRANSFER_FEE) % TWO_128 <= Load(m, tx.from).balance
  }

  lemma {:induction false} ExecutedIffAcceptable(m: Contents, tx: Tx)
    ensures ExecTransfer(m, tx).Executed? <==> Acceptable(m, tx)
    ensures forall e :: ExecTransfer(m, tx) == Failed(e) <==> WrongWith(m, tx, e)
  {}

  /** The first `i` transactions execute and the next one fails with the given error. */
  ghost predicate FailsAt(m: Contents, txs: seq<Tx>, miner: Address, i: nat, error: TxError) {
    && i < |txs| && ExecBlock(m, txs[..i], miner).Executed?
    && WrongWith(ExecBlock(m, txs[..i], miner).state, txs[i], error)
  }

  /** A block fails exactly at its first transaction that is not acceptable where it stands,
      with what is wrong with that one. */
  lemma {:induction false} BlockFailsAt(m: Contents, txs: seq<Tx>, miner: Address, error: TxError)
    ensures ExecBlock(m, txs, miner) == Failed(error) <==> exists i :: FailsAt(m, txs, miner, i, error)
    decreases |txs|
  {
    hide WrongWith, ExecTransfer, ExecBlock, FailsAt;
    if |txs| == 0 {
      assert ExecBlock(m, txs, miner) != Failed(error) by { EmptyExecutes(m, txs, miner); }
      forall i: nat ensures !FailsAt(m, txs, miner, i, error) { FailsStep(m, txs, miner, i, error); }
    } else {
      forall i: nat { FailsStep(m, txs, miner, i, error); }
      ExecStep(m, txs, miner);
      if ExecTransfer(m, txs[0]).Executed? {
        var m1 := AddBalance(ExecTransfer(m, txs[0]).state, miner, TRANSFER_FEE);
        BlockFailsAt(m1, txs[1..], miner, error);
        if ExecBlock(m, txs, miner) == Failed(error) {
          var i: nat :| FailsAt(m1, txs[1..], miner, i, error);
          FailsStep(m, txs, miner, i + 1, error);
        }
      } else if ExecTransfer(m, txs[0]) == Failed(error) {
        FailsStep(m, txs, miner, 0, error);
      }
    }
  }

  lemma {:induction false} EmptyExecutes(m: Contents, txs: seq<Tx>, miner: Address)
    requires |txs| == 0
    ensures ExecBlock(m, txs, miner) == Executed(m)
  {}

  lemma {:induction false} ExecStep(m: Contents, txs: seq<Tx>, miner: Address)
    requires |txs| > 0
    ensures var first := ExecTransfer(m, txs[0]);
            ExecBlock(m, txs, miner) ==
              if first.Failed? then first else ExecBlock(AddBalance(first.state, miner, TRANSFER_FEE), txs[1..], miner)
  {}

  /** Where a block fails, seen from its first transaction. */
  lemma {:induction false} FailsStep(m: Contents, txs: seq<Tx>, miner: Address, i: nat, error: TxError)
    ensures |txs| == 0 ==> !FailsAt(m, txs, miner, i, error)
    ensures |txs| > 0 && i == 0 ==> (FailsAt(m, txs, miner, i, error) <==> ExecTransfer(m, txs[0]) == Failed(error))
    ensures |txs| > 0 && i > 0 ==>
              var first := ExecTransfer(m, txs[0]);
              FailsAt(m, txs, miner, i, error) <==>
                first.Executed? && FailsAt(AddBalance(first.state, miner, TRANSFER_FEE), txs[1..], miner, i - 1, error)
  {
    hide ExecTransfer, ExecBlock, WrongWith;
    if 0 < |txs| && i == 0 {
      EmptyExecutes(m, txs[..0], miner);
      ExecutedIffAcceptable(m, txs[0]);
    } else if 0 < i < |txs| {
      ExecStep(m, txs[..i], miner);
      assert txs[..i][1..] == txs[1..][..i - 1];
    }
  }

  ghost predicate AllSigned(txs: seq<Tx>) {
    forall i :: 0 <= i < |txs| ==> txs[i].signed
  }

  /** Every transaction of an executed block is signed. */
  lemma {:induction false} ExecutedIsSigned(m: Contents, txs: seq<Tx>, miner: Address)
    requires ExecBlock(m, txs, miner).Executed?
    ensures AllSigned(txs)
    decreases |txs|
  {
    hide AddBalance;
    if |txs| > 0 {
      ExecutedIsSigned(AddBalance(ExecTransfer(m, txs[0]).state, miner, TRANSFER_FEE), txs[1..], miner);
      forall i | 0 <= i < |txs| ensures txs[i].signed { if i > 0 { assert txs[i] == txs[1..][i - 1]; } }
    }
  }

  /** Value and fee together fit in 128 bits. */
  predicate Fits(tx: Tx) {
    tx.value + TRANSFER_FEE < TWO_128
  }

  /** The fee wraps the sender's balance around and the receiver's balance does not wrap back. */
  predicate Mints(m: Contents, tx: Tx) {
    && !Fits(tx) && Load(m, tx.from).balance < TRANSFER_FEE
    && (tx.from == tx.to || Load(m, tx.to).balance + tx.value < TWO_128)
  }

  /** The transaction does not mint, or the miner's balance wraps and takes back what it minted. */
  predicate Conserves(m: Contents, tx: Tx, miner: Address) {
    !Mints(m, tx) || miner == tx.to || (miner != tx.from && Load(m, miner).balance + TRANSFER_FEE >= TWO_128)
  }

  /** An accepted transaction is covered by the sender's balance, so that neither the fee
      underflows nor the transfer falls through, exactly when value plus fee fit in 128 bits. */
  lemma {:induction false} AcceptedIsCovered(m: Contents, tx: Tx)
    requires Check(m, tx).None? && Load(m, tx.from).balance < TWO_128
    ensures tx.value + TRANSFER_FEE <= Load(m, tx.from).balance <==> Fits(tx)
  {
    NoWrap(tx.value, TRANSFER_FEE);
  }

  /** What every executed transaction leaves alone, and the nonce it sets. */
  lemma {:induction false} TransferFrame(m: Contents, tx: Tx)
    requires Typed(m) && Check(m, tx).None?
    ensures var m' := ExecTransfer(m, tx).state;
            && Typed(m') && SameElsewhere(m, m') && SameModulo(Total(m'), Total(m) - TRANSFER_FEE)
            && Load(m', tx.from).nonce == tx.nonce
            && (forall a :: a != tx.from && a != tx.to ==> Load(m', a) == Load(m, a))
            && (forall a :: a != tx.from ==> Load(m', a).nonce == Load(m, a).nonce)
            && (forall a :: Load(m', a).locked == Load(m, a).locked)
  {
    hide Total, Typed, SameModulo;
    var m1 := SubBalance(m, tx.from, TRANSFER_FEE);
    SubModulo(m, tx.from, TRANSFER_FEE);
    var m2 := IncNonce(m1, tx.from);
    TotalStore(m1, tx.from, Load(m2, tx.from));
    TransferModulo(m2, tx.from, tx.to, tx.value);
    SameModuloTransitive(Total(ExecTransfer(m, tx).state), Total(m2), Total(m) - TRANSFER_FEE);
  }

  lemma {:induction false} SameModuloTransitive(a: int, b: int, c: int)
    requires SameModulo(a, b) && SameModulo(b, c)
    ensures SameModulo(a, c)
  {}

  /** Where the money is after an executed transaction.  If value plus fee fit, the value moves
      and the fee leaves the sender.  If not, a sender who can pay the fee pays it and nothing
      moves, and one who cannot ends up with a balance that wrapped around. */
  lemma {:induction false} TransferEffect(m: Contents, tx: Tx)
    requires Typed(m) && Total(m) < TWO_128 && Check(m, tx).None?
    ensures var m', c, d := ExecTransfer(m, tx).state, Load(m, tx.from).balance, Load(m, tx.to).balance;
            var c', d' := Load(m', tx.from).balance, Load(m', tx.to).balance;
            && (Fits(tx) && tx.from != tx.to ==> c' == c - TRANSFER_FEE - tx.value && d' == d + tx.value)
            && (Fits(tx) && tx.from == tx.to ==> c' == c - TRANSFER_FEE)
            && (!Fits(tx) && c >= TRANSFER_FEE ==> c' == c - TRANSFER_FEE && (tx.from != tx.to ==> d' == d))
            && (!Fits(tx) && c < TRANSFER_FEE && tx.from == tx.to ==> c' == c + TWO_128 - TRANSFER_FEE)
            && (!Fits(tx) && c < TRANSFER_FEE && tx.from != tx.to ==>
                  && c' == c + TWO_128 - TRANSFER_FEE - tx.value
                  && d' == if d + tx.value < TWO_128 then d + tx.value else d + tx.value - TWO_128)
  {
    hide Total, Typed;
    LoadWithinTotal(m, tx.from);
    LoadWithinTotal(m, tx.to);
    if tx.from != tx.to { LoadPairWithinTotal(m, tx.from, tx.to); }
    AcceptedIsCovered(m, tx);
    NoWrap(Load(m, tx.from).balance, TRANSFER_FEE);
    NoWrap(tx.value, TRANSFER_FEE);
    MoveEffect(IncNonce(SubBalance(m, tx.from, TRANSFER_FEE), tx.from), tx.from, tx.to, tx.value);
  }

  /** Balances after a transfer, wrap-around included. */
  lemma {:induction false} MoveEffect(m: Contents, from: Address, to: Address, amount: Amount)
    requires Load(m, from).balance < TWO_128 && Load(m, to).balance < TWO_128
    ensures var m', c, d := Transfer(m, from, to, amount), Load(m, from).balance, Load(m, to).balance;
            && (amount > c ==> m' == m)
            && (amount <= c && from == to ==> Load(m', from).balance == c)
            && (amount <= c && from != to ==>
                  && Load(m', from).balance == c - amount
                  && Load(m', to).balance == if d + amount < TWO_128 then d + amount else d + amount - TWO_128)
  {
    var c, d := Load(m, from).balance, Load(m, to).balance;
    NoWrap(c, amount);
    NoWrap(d, amount);
    if from == to && amount <= c { NoWrap(c - amount, amount); }
  }

  /** The total falls by the fee exactly when nothing is minted; otherwise it has 2^128 more. */
  lemma {:induction false} TransferTotal(m: Contents, tx: Tx)
    requires Typed(m) && Total(m) < TWO_128 && Check(m, tx).None?
    ensures Total(ExecTransfer(m, tx).state) + TRANSFER_FEE == Total(m) + if Mints(m, tx) then TWO_128 else 0
    ensures Total(ExecTransfer(m, tx).state) + TRANSFER_FEE == Total(m) <==>
              Fits(tx) || TRANSFER_FEE <= Load(m, tx.from).balance
              || (tx.from != tx.to && Load(m, tx.to).balance + tx.value >= TWO_128)
  {
    TransferFrame(m, tx);
    TransferEffect(m, tx);
    TwoAccounts(m, ExecTransfer(m, tx).state, tx.from, tx.to);
  }

  /** When only two accounts differ, the totals differ by the difference of their funds. */
  lemma {:induction false} TwoAccounts(m: Contents, m': Contents, a: Address, b: Address)
    requires Typed(m) && Typed(m') && SameElsewhere(m, m')
    requires forall x :: x != a && x != b ==> Load(m', x) == Load(m, x)
    requires forall x :: Load(m', x).locked == Load(m, x).locked
    ensures Total(m') - Total(m) == Load(m', a).balance - Load(m, a).balance
                                    + if a == b then 0 else Load(m', b).balance - Load(m, b).balance
  {
    var n := Store(Store(m, a, Load(m', a)), b, Load(m', b));
    TotalStore(m, a, Load(m', a));
    TotalStore(Store(m, a, Load(m', a)), b, Load(m', b));
    SameFunds(m', n);
  }

  /** How many of the transactions a sender issued. */
  function CountFrom(txs: seq<Tx>, a: Address): (n: nat) {
    if |txs| == 0 then 0 else CountFrom(txs[..|txs| - 1], a) + if txs[|txs| - 1].from == a then 1 else 0
  }

  ghost predicate FeesFit(txs: seq<Tx>) {
    forall i :: 0 <= i < |txs| ==> Fits(txs[i])
  }

  /** The state after a transaction and the fee credited to the miner. */
  function ExecOne(m: Contents, tx: Tx, miner: Address): (r: Contents)
    requires Check(m, tx).None?
  {
    AddBalance(ExecTransfer(m, tx).state, miner, TRANSFER_FEE)
  }

  lemma {:induction false} ExecOneFrame(m: Contents, tx: Tx, miner: Address)
    requires Typed(m) && Check(m, tx).None?
    ensures var m' := ExecOne(m, tx, miner);
            && Typed(m') && SameElsewhere(m, m') && SameModulo(Total(m'), Total(m))
            && (forall a :: Load(m', a).locked == Load(m, a).locked)
  {
    hide Total, Typed, SameModulo, SameElsewhere;
    TransferFrame(m, tx);
    var m1 := ExecTransfer(m, tx).state;
    AddModulo(m1, miner, TRANSFER_FEE);
    SameElsewhereTransitive(m, m1, ExecOne(m, tx, miner));
    ModuloStep(Total(m1), Total(m), Total(ExecOne(m, tx, miner)), TRANSFER_FEE);
  }

  /** A transaction and the fee credited to the miner together keep the total exactly under
      `Conserves`; otherwise they add 2^128 to it. */
  lemma {:induction false} TxAndFeeConserve(m: Contents, tx: Tx, miner: Address)
    requires Typed(m) && Total(m) < TWO_128 && Check(m, tx).None?
    ensures Total(ExecOne(m, tx, miner)) == Total(m) + if Conserves(m, tx, miner) then 0 else TWO_128
  {
    hide Total, SameElsewhere;
    TransferFrame(m, tx);
    TransferTotal(m, tx);
    TransferEffect(m, tx);
    var m1 := ExecTransfer(m, tx).state;
    LoadWithinTotal(m, miner);
    LoadWithinTotal(m1, miner);
    LoadWithinTotal(m, tx.from);
    var c := Load(m1, miner);
    NoWrap(c.balance, TRANSFER_FEE);
    TotalStore(m1, miner, c.(balance := Add128(c.balance, TRANSFER_FEE)));
  }

  lemma {:induction false} SameElsewhereTransitive(a: Contents, b: Contents, c: Contents)
    requires SameElsewhere(a, b) && SameElsewhere(b, c)
    ensures SameElsewhere(a, c)
  {}

  /** Every transaction of the block meets `Conserves` in the state it finds. */
  ghost predicate EachConserves(m: Contents, txs: seq<Tx>, miner: Address)
    decreases |txs|
  {
    |txs| > 0 && Check(m, txs[0]).None? ==> Conserves(m, txs[0], miner) && EachConserves(ExecOne(m, txs[0], miner), txs[1..], miner)
  }

  /** The total is `total` before the block and after each of its transactions. */
  ghost predicate TotalKept(m: Contents, txs: seq<Tx>, miner: Address, total: nat)
    decreases |txs|
  {
    Total(m) == total && (|txs| > 0 && Check(m, txs[0]).None? ==> TotalKept(ExecOne(m, txs[0], miner), txs[1..], miner, total))
  }

  /** Executing a block keeps the sum of all available and locked balances throughout, whoever
      pays, receives or mines, exactly when every transaction meets `Conserves`. */
  lemma {:induction false} BlockConservesFunds(m: Contents, txs: seq<Tx>, miner: Address)
    requires Typed(m) && Total(m) < TWO_128 && ExecBlock(m, txs, miner).Executed?
    ensures TotalKept(m, txs, miner, Total(m)) <==> EachConserves(m, txs, miner)
    ensures EachConserves(m, txs, miner) ==> Total(ExecBlock(m, txs, miner).state) == Total(m)
    decreases |txs|
  {
    hide Total, Check, Typed, Conserves;
    if |txs| > 0 {
      var m1 := ExecOne(m, txs[0], miner);
      ExecOneFrame(m, txs[0], miner);
      TxAndFeeConserve(m, txs[0], miner);
      if Conserves(m, txs[0], miner) {
        BlockConservesFunds(m1, txs[1..], miner);
      } else {
        assert !TotalKept(m1, txs[1..], miner, Total(m));
      }
    }
  }

  /** Whatever its transactions are, a block touches nothing but accounts, moves no locked
      funds, and changes the total by multiples of 2^128 only. */
  lemma {:induction false} BlockFrame(m: Contents, txs: seq<Tx>, miner: Address)
    requires Typed(m) && ExecBlock(m, txs, miner).Executed?
    ensures var m' := ExecBlock(m, txs, miner).state;
            && Typed(m') && SameElsewhere(m, m') && SameModulo(Total(m'), Total(m))
            && (forall a :: Load(m', a).locked == Load(m, a).locked)
    decreases |txs|
  {
    hide Total, Check, Typed, SameElsewhere;
    if |txs| == 0 {
      assert SameElsewhere(m, m) by { SameElsewhereReflexive(m); }
    } else {
      var m1 := ExecOne(m, txs[0], miner);
      ExecOneFrame(m, txs[0], miner);
      BlockFrame(m1, txs[1..], miner);
      SameElsewhereTransitive(m, m1, ExecBlock(m1, txs[1..], miner).state);
    }
  }

  /** It is enough that each value plus fee fits. */
  lemma {:induction false} FittingConserves(m: Contents, txs: seq<Tx>, miner: Address)
    requires FeesFit(txs)
    ensures EachConserves(m, txs, miner)
    decreases |txs|
  {
    if |txs| > 0 && Check(m, txs[0]).None? { FittingConserves(ExecOne(m, txs[0], miner), txs[1..], miner); }
  }

  lemma {:induction false} SameElsewhereReflexive(m: Contents)
    ensures SameElsewhere(m, m)
  {}

  lemma {:induction false} CountFromFront(txs: seq<Tx>, a: Address)
    requires |txs| > 0
    ensures CountFrom(txs, a) == CountFrom(txs[1..], a) + if txs[0].from == a then 1 else 0
    decreases |txs|
  {
    if |txs| > 1 {
      CountFromFront(txs[..|txs| - 1], a);
      assert txs[..|txs| - 1][1..] == txs[1..][..|txs| - 2];
    }
  }

  lemma {:induction false} TxNonces(m: Contents, tx: Tx, miner: Address)
    requires Check(m, tx).None?
    ensures forall a :: Load(AddBalance(ExecTransfer(m, tx).state, miner, TRANSFER_FEE), a).nonce ==
                          if a == tx.from then Inc64(Load(m, a).nonce) else Load(m, a).nonce
  {}

  lemma {:induction false} AddInc64(n: nat, k: nat)
    ensures (Inc64(n) + k) % TWO_64 == (n + 1 + k) % TWO_64
  {
    var q := (n + 1) / TWO_64;
    assert n + 1 == q * TWO_64 + Inc64(n);
    assert (n + 1 + k) % TWO_64 == (Inc64(n) + k + q * TWO_64) % TWO_64;
  }

  /** Every address's nonce rises by exactly its number of transactions. */
  lemma {:induction false} BlockNonces(m: Contents, txs: seq<Tx>, miner: Address, a: Address)
    requires ExecBlock(m, txs, miner).Executed? && Load(m, a).nonce < TWO_64
    ensures Load(ExecBlock(m, txs, miner).state, a).nonce == (Load(m, a).nonce + CountFrom(txs, a)) % TWO_64
    decreases |txs|
  {
    hide Load, AddBalance, CountFrom;
    if |txs| > 0 {
      var m1 := AddBalance(ExecTransfer(m, txs[0]).state, miner, TRANSFER_FEE);
      TxNonces(m, txs[0], miner);
      BlockNonces(m1, txs[1..], miner, a);
      CountFromFront(txs, a);
      if txs[0].from == a { AddInc64(Load(m, a).nonce, CountFrom(txs[1..], a)); }
    } else {
      CountFromNone(txs, a);
    }
  }

  lemma {:induction false} CountFromNone(txs: seq<Tx>, a: Address)
    requires |txs| == 0
    ensures CountFrom(txs, a) == 0
  {}

  /** The transactions of a sender carry consecutive nonces, starting after the one in the state. */
  lemma {:induction false} BlockNoncesConsecutive(m: Contents, txs: seq<Tx>, miner: Address, i: nat)
    requires ExecBlock(m, txs, miner).Executed? && i < |txs|
    ensures txs[i].nonce == (Load(m, txs[i].from).nonce + CountFrom(txs[..i], txs[i].from) + 1) % TWO_64
    decreases |txs|
  {
    hide Load, AddBalance, CountFrom;
    var a := txs[i].from;
    if i == 0 {
      CountFromNone(txs[..0], a);
    } else {
      var m1 := AddBalance(ExecTransfer(m, txs[0]).state, miner, TRANSFER_FEE);
      TxNonces(m, txs[0], miner);
      BlockNoncesConsecutive(m1, txs[1..], miner, i - 1);
      assert txs[..i][1..] == txs[1..][..i - 1];
      CountFromFront(txs[..i], a);
      if txs[0].from == a { AddInc64(Load(m, a).nonce, CountFrom(txs[1..][..i - 1], a) + 1); }
    }
  }

  /** What an address was sent, and what it sent and paid in fees. */
  function Received(txs: seq<Tx>, a: Address): (n: nat) {
    if |txs| == 0 then 0 else (if txs[0].to == a then txs[0].value else 0) + Received(txs[1..], a)
  }

  function Spent(txs: seq<Tx>, a: Address): (n: nat) {
    if |txs| == 0 then 0 else (if txs[0].from == a then txs[0].value + TRANSFER_FEE else 0) + Spent(txs[1..], a)
  }

  lemma {:induction false} OnePays(m: Contents, tx: Tx, miner: Address, a: Address)
    requires Typed(m) && Total(m) < TWO_128 && Acceptable(m, tx) && Fits(tx)
    ensures Typed(ExecOne(m, tx, miner)) && Total(ExecOne(m, tx, miner)) == Total(m)
    ensures Load(ExecOne(m, tx, miner), a).balance == Load(m, a).balance
              + (if tx.to == a then tx.value else 0) - (if tx.from == a then tx.value + TRANSFER_FEE else 0)
              + if a == miner then TRANSFER_FEE else 0
  {
    hide Total, Typed, SameElsewhere;
    ExecOneFrame(m, tx, miner);
    TxAndFeeConserve(m, tx, miner);
    TransferFrame(m, tx);
    TransferTotal(m, tx);
    TransferEffect(m, tx);
    var m1 := ExecTransfer(m, tx).state;
    LoadWithinTotal(m1, miner);
    NoWrap(Load(m1, miner).balance, TRANSFER_FEE);
  }

  /** The books of a block: every balance changes by exactly what the address received, spent
      and paid, and the miner's by all the fees. */
  lemma {:induction false} BlockPays(m: Contents, txs: seq<Tx>, miner: Address, a: Address)
    requires Typed(m) && Total(m) < TWO_128 && ExecBlock(m, txs, miner).Executed? && FeesFit(txs)
    ensures Load(ExecBlock(m, txs, miner).state, a).balance ==
              Load(m, a).balance + Received(txs, a) - Spent(txs, a) + if a == miner then TRANSFER_FEE * |txs| else 0
    decreases |txs|
  {
    hide Total, Typed, Load, Check, ExecTransfer, AddBalance;
    if |txs| > 0 {
      ExecutedIffAcceptable(m, txs[0]);
      assert Check(m, txs[0]).None? by { CheckMeans(m, txs[0]); }
      OnePays(m, txs[0], miner, a);
      BlockPays(ExecOne(m, txs[0], miner), txs[1..], miner, a);
    }
  }

  lemma {:induction false} CheckMeans(m: Contents, tx: Tx)
    ensures Check(m, tx).None? <==> Acceptable(m, tx)
    ensures Check(m, tx).Some? ==> WrongWith(m, tx, Check(m, tx).value)
  {}

  /** Executing two lists of transactions in turn is executing them as one. */
  lemma {:induction false} ExecConcat(m: Contents, txs: seq<Tx>, more: seq<Tx>, miner: Address)
    requires ExecBlock(m, txs, miner).Executed?
    ensures ExecBlock(m, txs + more, miner) == ExecBlock(ExecBlock(m, txs, miner).state, more, miner)
    decreases |txs|
  {
    hide ExecTransfer, AddBalance;
    if |txs| == 0 {
      assert txs + more == more;
    } else {
      ExecConcat(AddBalance(ExecTransfer(m, txs[0]).state, miner, TRANSFER_FEE), txs[1..], more, miner);
      assert (txs + more)[1..] == txs[1..] + more;
    }
  }

  /** A value close to 2^128 makes value plus fee wrap to nothing: a sender without any
      balance then passes the check and money comes into being. */
  lemma {:induction false} OverflowingFeeMintsFunds()
    ensures var m: Contents := map[];
            var tx := Tx(1, 2, 1, TWO_128 - TRANSFER_FEE, true);
            && ExecBlock(m, [tx], 3).Executed? && Total(m) == 0
            && Total(ExecBlock(m, [tx], 3).state) == TWO_128
  {
    hide Total;
    var m: Contents := map[];
    var tx := Tx(1, 2, 1, TWO_128 - TRANSFER_FEE, true);
    assert Total(m) == 0 by { NoFunds(); }
    NoWrap(0, TRANSFER_FEE);
    var m1 := SubBalance(m, 1, TRANSFER_FEE);
    assert Load(m1, 1).balance == TWO_128 - TRANSFER_FEE;
    TotalStore(m, 1, Load(m1, 1));
    var m2 := IncNonce(m1, 1);
    TotalStore(m1, 1, Load(m2, 1));
    var m3 := SubBalance(m2, 1, tx.value);
    TotalStore(m2, 1, Load(m3, 1));
    var m4 := AddBalance(m3, 2, tx.value);
    TotalStore(m3, 2, Load(m4, 2));
    var m5 := AddBalance(m4, 3, TRANSFER_FEE);
    TotalStore(m4, 3, Load(m5, 3));
    assert ExecTransfer(m, tx) == Executed(m4);
    assert [tx][1..] == [];
    assert ExecBlock(m5, [tx][1..], 3) == Executed(m5);
  }

  lemma {:induction false} NoFunds()
    ensures Total(map[]) == 0
  {}

  /** A sender with just the fee may send a value near 2^128: it is executed, the fee is paid
      and the value stays where it is. */
  lemma {:induction false} OverflowingValueStays()
    ensures var m := Store(map[], 1, Account(TRANSFER_FEE, 0, 0));
            var tx := Tx(1, 2, 1, TWO_128 - TRANSFER_FEE, true);
            && !Fits(tx) && Check(m, tx).None? && Conserves(m, tx, 3)
            && Load(ExecTransfer(m, tx).state, 2).balance == 0 && Load(ExecTransfer(m, tx).state, 1).balance == 0
  {
    var m := Store(map[], 1, Account(TRANSFER_FEE, 0, 0));
    var tx := Tx(1, 2, 1, TWO_128 - TRANSFER_FEE, true);
    assert Typed(m);
    TotalStore(map[], 1, Account(TRANSFER_FEE, 0, 0));
    TransferEffect(m, tx);
  }

  /** A sender with nothing empties a receiver who owns the fee: the receiver's balance wraps
      to zero and the total is kept. */
  lemma {:induction false} ReceiverLosesFunds()
    ensures var m := Store(map[], 2, Account(TRANSFER_FEE, 0, 0));
            var tx := Tx(1, 2, 1, TWO_128 - TRANSFER_FEE, true);
            && !Fits(tx) && Check(m, tx).None? && Conserves(m, tx, 3)
            && Load(m, 2).balance == TRANSFER_FEE && Load(ExecTransfer(m, tx).state, 2).balance == 0
  {
    var m := Store(map[], 2, Account(TRANSFER_FEE, 0, 0));
    var tx := Tx(1, 2, 1, TWO_128 - TRANSFER_FEE, true);
    assert Typed(m);
    TotalStore(map[], 2, Account(TRANSFER_FEE, 0, 0));
    TransferEffect(m, tx);
  }

  /** Executes one transfer on the shared state; a failed check leaves it alone. */
  method ExcTransferTx(tx: Tx, state: Balance) returns (error: Option<TxError>)
    requires Typed(state.treedb.View())
    modifies state.treedb`localChanges
    ensures Typed(state.treedb.View()) && (error.None? <==> Acceptable(old(state.treedb.View()), tx))
    ensures error.Some? ==> WrongWith(old(state.treedb.View()), tx, error.value)
    ensures error == Check(old(state.treedb.View()), tx)
    ensures state.treedb.View() ==
              if error.None? then ExecTransfer(old(state.treedb.View()), tx).state else old(state.treedb.View())
  {
    hide Acceptable, WrongWith;
    CheckMeans(state.treedb.View(), tx);
    if !tx.signed { return Some(BadSignature); }
    var account := state.LoadAccount(tx.from);
    if tx.nonce != Inc64(account.nonce) { return Some(InvalidTxNonce); }
    if Add128(tx.value, TRANSFER_FEE) > account.balance { return Some(BalanceNotEnough); }
    state.SubFrom(tx.from, TRANSFER_FEE);
    state.BumpNonce(tx.from);
    state.Move(tx.from, tx.to, tx.value);
    error := None;
  }

  /** Executes a block; on success the state is committed and its root returned. */
  method ExcTxsInBlock(txs: seq<Tx>, state: Balance, miner: Address)
    returns (r: Option<Root>, error: Option<TxError>)
    requires Typed(state.treedb.View()) && state.treedb.db.Valid() && state.treedb.db.Readable(state.treedb.root)
    modifies state.treedb, state.treedb.db.store
    ensures state.treedb.db.Valid()
    ensures r.Some? <==> ExecBlock(old(state.treedb.View()), txs, miner).Executed?
    ensures r.Some? ==> r.value.contents == ExecBlock(old(state.treedb.View()), txs, miner).state
                        && state.treedb.View() == r.value.contents && state.treedb.db.Readable(r.value)
                        && Typed(r.value.contents)
    ensures r.None? ==> error.Some? && ExecBlock(old(state.treedb.View()), txs, miner) == Failed(error.value)
    ensures r.None? ==> exists i :: FailsAt(old(state.treedb.View()), txs, miner, i, error.value)
    ensures r.Some? ==> error.None? && AllSigned(txs)
    ensures forall root :: old(state.treedb.db.Readable(root)) ==> state.treedb.db.Readable(root)
  {
    var i := 0;
    var db := state.treedb;
    assert txs[0..] == txs;
    while i < |txs|
      invariant 0 <= i <= |txs| && Typed(db.View())
      invariant ExecBlock(old(db.View()), txs, miner) == ExecBlock(db.View(), txs[i..], miner)
      invariant db.root == old(db.root) && unchanged(db.db.store)
    {
      assert txs[i..][0] == txs[i] && txs[i..][1..] == txs[i + 1..];
      error := ExcTransferTx(txs[i], state);
      if error.Some? {
        BlockFailsAt(old(db.View()), txs, miner, error.value);
        return None, error;
      }
      state.AddTo(miner, TRANSFER_FEE);
      i := i + 1;
    }
    ExecutedIsSigned(old(db.View()), txs, miner);
    var keys := Enumerate(db.localChanges.Keys);
    db.Commit(keys);
    r, error := Some(db.root), None;
  }
}
