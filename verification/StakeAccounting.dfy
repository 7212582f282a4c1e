/** Stakes beside account balances: what a validator's record says is locked is what its
    account has locked. */
module StakeAccounting {
  import opened Basics
  import opened StateStore
  import opened Ledger
  import opened Executor
  import opened ValidatorList

  function DepositSum(queue: seq<LockingBalance>): (n: nat) {
    if |queue| == 0 then 0 else DepositSum(queue[..|queue| - 1]) + queue[|queue| - 1].amount
  }

  lemma {:induction false} DepositAppend(queue: seq<LockingBalance>, d: LockingBalance)
    ensures DepositSum(queue + [d]) == DepositSum(queue) + d.amount
  {
    assert (queue + [d])[..|queue|] == queue;
  }

  /** A validator's record agrees with its account and with its own deposits. */
  ghost predicate StakeOk(m: Contents, v: Validator) {
    && v.balance == Load(m, v.address).locked
    && v.balance == v.effectiveBalance + DepositSum(v.depositQueue)
  }

  ghost predicate Sound(m: Contents, l: seq<Validator>) {
    && Represents(m, l) && Typed(m) && Total(m) < TWO_128
    && (forall i :: 0 <= i < |l| ==> StakeOk(m, l[i]))
    && (forall a :: !HasAddress(l, a) ==> Load(m, a).locked == 0)
  }

  datatype Op =
    | Validate(addr: Address, pubkey: seq<int>, amount: nat)
    | Deposit(addr: Address, amount: nat)
    | Exit(addr: Address)
    | Pay(from: Address, to: Address, amount: nat)
    | Block(txs: seq<Tx>, miner: Address)

  function NewValidator(addr: Address, pubkey: seq<int>, amount: nat): (v: Validator) {
    Validator(addr, pubkey, amount, amount, 0, 0, [], [])
  }

  function Deposited(v: Validator, amount: nat): (r: Validator) {
    v.(depositQueue := v.depositQueue + [LockingBalance(amount, 0)], balance := Add128(v.balance, amount))
  }

  /** The stored record of a validator. */
  function RecordOf(m: Contents, addr: Address): (r: Option<Validator>) {
    if ValidatorKey(addr) in m && m[ValidatorKey(addr)].ListEntry? then Some(m[ValidatorKey(addr)].payload) else None
  }

  function DoValidate(m: Contents, addr: Address, pubkey: seq<int>, amount: nat): (r: Contents)
    requires Readable(m)
  {
    if RecordOf(m, addr).Some? then m else LockBalance(StoreInsert(m, NewValidator(addr, pubkey, amount)), addr, amount)
  }

  function DoDeposit(m: Contents, addr: Address, amount: nat): (r: Contents)
    requires Readable(m) && forall k: Key :: k.ValidatorKey? && k in m ==> m[k].ListEntry? && m[k].payload.address == k.address
  {
    if RecordOf(m, addr).None? then m
    else LockBalance(StoreSet(m, Deposited(RecordOf(m, addr).value, amount)), addr, amount)
  }

  function DoExit(m: Contents, addr: Address): (r: Contents)
    requires Readable(m) && forall k: Key :: k.ValidatorKey? && k in m ==> m[k].ListEntry? && m[k].payload.address == k.address
  {
    if RecordOf(m, addr).None? then m else StoreSet(m, RecordOf(m, addr).value.(exitHeight := 0))
  }

  /** The records are readable list nodes stored under their own address. */
  ghost predicate Keyed(m: Contents) {
    Readable(m) && forall k: Key :: k.ValidatorKey? && k in m ==> m[k].ListEntry? && m[k].payload.address == k.address
  }

  lemma {:induction false} ListIsKeyed(m: Contents, l: seq<Validator>)
    requires Represents(m, l)
    ensures Keyed(m)
    ensures forall a :: RecordOf(m, a).Some? <==> HasAddress(l, a)
    ensures forall i :: 0 <= i < |l| ==> RecordOf(m, l[i].address) == Some(l[i])
  {
    ListReadable(m, l);
    forall i | 0 <= i < |l| ensures RecordOf(m, l[i].address) == Some(l[i]) { assert NodeAt(m, l, i); }
    forall a ensures RecordOf(m, a).Some? <==> HasAddress(l, a) { AddressIn(m, l, a); }
    forall k: Key | k.ValidatorKey? && k in m ensures m[k].ListEntry? && m[k].payload.address == k.address {
      AddressIn(m, l, k.address);
      var i :| 0 <= i < |l| && l[i].address == k.address;
      assert NodeAt(m, l, i);
    }
  }

  function Step(m: Contents, op: Op): (r: Contents)
    requires Keyed(m)
  {
    match op
    case Validate(a, pk, amount) => DoValidate(m, a, pk, amount)
    case Deposit(a, amount) => DoDeposit(m, a, amount)
    case Exit(a) => DoExit(m, a)
    case Pay(from, to, amount) => Transfer(m, from, to, amount)
    case Block(txs, miner) => if ExecBlock(m, txs, miner).Executed? then ExecBlock(m, txs, miner).state else m
  }

  /** What is locked is available, and blocks conserve funds. */
  ghost predicate Affordable(m: Contents, op: Op) {
    match op
    case Validate(a, _, amount) => amount <= Load(m, a).balance
    case Deposit(a, amount) => amount <= Load(m, a).balance
    case Block(txs, miner) => EachConserves(m, txs, miner)
    case _ => true
  }

  /** Writing list entries does not move money. */
  lemma {:induction false} EntryIsNeutral(m: Contents, k: Key, v: Value)
    requires Typed(m) && !k.AccountKey? && !v.AccountData?
    ensures Typed(m[k := v]) && Total(m[k := v]) == Total(m)
  {
    TotalUpdate(m, k, v);
  }

  lemma {:induction false} InsertIsNeutral(m: Contents, l: seq<Validator>, v: Validator)
    requires Represents(m, l) && Typed(m)
    ensures Readable(m) && Typed(StoreInsert(m, v)) && Total(StoreInsert(m, v)) == Total(m)
  {
    hide Total, Typed;
    ListReadable(m, l);
    if HeadKey !in m {
      EntryIsNeutral(m, KeyOf(v), ListEntry(None, None, v));
      EntryIsNeutral(m[KeyOf(v) := ListEntry(None, None, v)], HeadKey, HeadRef(KeyOf(v)));
    } else {
      var head := m[HeadKey].first;
      var m1 := m[KeyOf(v) := ListEntry(None, Some(head), v)];
      EntryIsNeutral(m, KeyOf(v), ListEntry(None, Some(head), v));
      var next := m1[head];
      var m2 := m1[KeyOf(next.payload) := ListEntry(Some(KeyOf(v)), next.next, next.payload)];
      EntryIsNeutral(m1, KeyOf(next.payload), ListEntry(Some(KeyOf(v)), next.next, next.payload));
      EntryIsNeutral(m2, HeadKey, HeadRef(KeyOf(v)));
    }
  }

  lemma {:induction false} SameLoads(m: Contents, m': Contents)
    requires SameAccounts(m, m')
    ensures forall a :: Load(m', a) == Load(m, a)
  {}

  /** Account changes leave the represented list alone. */
  lemma {:induction false} ListUntouched(m: Contents, m': Contents, l: seq<Validator>)
    requires Represents(m, l) && SameElsewhere(m, m')
    ensures Represents(m', l)
  {
    forall i | 0 <= i < |l| ensures NodeAt(m', l, i) { assert NodeAt(m, l, i); }
    forall a | ValidatorKey(a) in m' ensures HasAddress(l, a) { AddressIn(m, l, a); }
  }

  /** The amount went from the available to the locked balance of one account. */
  ghost predicate MovedToStake(m: Contents, m': Contents, addr: Address, amount: nat) {
    && Load(m', addr).balance == Load(m, addr).balance - amount && Load(m', addr).locked == Load(m, addr).locked + amount
    && Load(m', addr).nonce == Load(m, addr).nonce && forall a :: a != addr ==> Load(m', a) == Load(m, a)
  }

  lemma {:induction false} ValidateSound(m: Contents, l: seq<Validator>, addr: Address, pubkey: seq<int>, amount: nat)
    requires Sound(m, l) && !HasAddress(l, addr) && amount <= Load(m, addr).balance
    ensures Keyed(m) && var m' := DoValidate(m, addr, pubkey, amount);
            && Sound(m', [Validator(addr, pubkey, amount, amount, 0, 0, [], [])] + l) && Total(m') == Total(m)
            && MovedToStake(m, m', addr, amount)
  {
    ListIsKeyed(m, l);
    var v := NewValidator(addr, pubkey, amount);
    InsertPrepends(m, l, v);
    InsertIsNeutral(m, l, v);
    var m1 := StoreInsert(m, v);
    SameLoads(m, m1);
    LoadWithinTotal(m, addr);
    LockConserves(m1, addr, amount);
    var m2, l2 := LockBalance(m1, addr, amount), [v] + l;
    ListUntouched(m1, m2, l2);
    forall i | 0 <= i < |l2| ensures StakeOk(m2, l2[i]) {
      if i > 0 { assert StakeOk(m, l[i - 1]) && l2[i].address != addr; }
    }
    PrependedAddresses(v, l);
  }

  lemma {:induction false} PrependedAddresses(v: Validator, l: seq<Validator>)
    ensures forall a :: HasAddress([v] + l, a) <==> a == v.address || HasAddress(l, a)
  {
    var l' := [v] + l;
    assert l'[0] == v && forall i :: 0 <= i < |l| ==> l'[i + 1] == l[i];
    forall a ensures HasAddress(l', a) <==> a == v.address || HasAddress(l, a) {
      if HasAddress(l, a) { var j :| 0 <= j < |l| && l[j].address == a; assert l'[j + 1].address == a; }
      if a == v.address { assert l'[0].address == a; }
      if HasAddress(l', a) && a != v.address { var j :| 0 <= j < |l'| && l'[j].address == a; assert l[j - 1].address == a; }
    }
  }

  lemma {:induction false} SetIsNeutral(m: Contents, l: seq<Validator>, v: Validator, k: nat)
    requires Represents(m, l) && Typed(m) && k < |l| && l[k].address == v.address
    ensures Readable(m) && KeyOf(v) in m && m[KeyOf(v)].ListEntry?
    ensures Typed(StoreSet(m, v)) && Total(StoreSet(m, v)) == Total(m)
  {
    SetReplaces(m, l, v, k);
    EntryIsNeutral(m, KeyOf(v), ListEntry(m[KeyOf(v)].pre, m[KeyOf(v)].next, v));
  }

  lemma {:induction false} DepositSound(m: Contents, l: seq<Validator>, k: nat, amount: nat)
    requires Sound(m, l) && k < |l| && amount <= Load(m, l[k].address).balance
    ensures Keyed(m) && var m' := DoDeposit(m, l[k].address, amount);
            && Sound(m', l[k := l[k].(balance := l[k].balance + amount, depositQueue := l[k].depositQueue + [LockingBalance(amount, 0)])])
            && Total(m') == Total(m) && MovedToStake(m, m', l[k].address, amount)
  {
    hide Total, Typed, Represents, StoreSet, HasAddress, StakeOk, Load;
    ListIsKeyed(m, l);
    assert DistinctAddresses(l) by { ListIsDistinct(m, l); }
    var addr, v := l[k].address, Deposited(l[k], amount);
    var v' := l[k].(balance := l[k].balance + amount, depositQueue := l[k].depositQueue + [LockingBalance(amount, 0)]);
    assert v == v' by { DepositFits(m, l, k, amount); }
    SetReplaces(m, l, v, k);
    SetIsNeutral(m, l, v, k);
    var m1 := StoreSet(m, v);
    SameLoads(m, m1);
    LoadWithinTotal(m, addr);
    LockConserves(m1, addr, amount);
    var m2, l2 := LockBalance(m1, addr, amount), l[k := v];
    ListUntouched(m1, m2, l2);
    StakesAfterDeposit(m, l, k, amount, m2);
    SameAddresses(l, k, v);
  }

  lemma {:induction false} ListIsDistinct(m: Contents, l: seq<Validator>)
    requires Represents(m, l)
    ensures DistinctAddresses(l)
  {}

  lemma {:induction false} DepositFits(m: Contents, l: seq<Validator>, k: nat, amount: nat)
    requires Sound(m, l) && k < |l| && amount <= Load(m, l[k].address).balance
    ensures Add128(l[k].balance, amount) == l[k].balance + amount
  {
    hide Total, Typed, Represents, HasAddress;
    assert StakeOk(m, l[k]);
    LoadWithinTotal(m, l[k].address);
    NoWrap(l[k].balance, amount);
  }

  lemma {:induction false} StakesAfterDeposit(m: Contents, l: seq<Validator>, k: nat, amount: nat, m': Contents)
    requires DistinctAddresses(l) && k < |l| && forall i :: 0 <= i < |l| ==> StakeOk(m, l[i])
    requires Load(m', l[k].address).locked == Load(m, l[k].address).locked + amount
    requires forall a :: a != l[k].address ==> Load(m', a) == Load(m, a)
    ensures var l' := l[k := l[k].(balance := l[k].balance + amount, depositQueue := l[k].depositQueue + [LockingBalance(amount, 0)])];
            forall i :: 0 <= i < |l'| ==> StakeOk(m', l'[i])
  {
    hide Load;
    DepositAppend(l[k].depositQueue, LockingBalance(amount, 0));
    var l' := l[k := l[k].(balance := l[k].balance + amount, depositQueue := l[k].depositQueue + [LockingBalance(amount, 0)])];
    forall i | 0 <= i < |l'| ensures StakeOk(m', l'[i]) { assert StakeOk(m, l[i]); }
  }

  lemma {:induction false} SameAddresses(l: seq<Validator>, k: nat, v: Validator)
    requires k < |l| && v.address == l[k].address
    ensures forall a :: HasAddress(l[k := v], a) <==> HasAddress(l, a)
  {
    forall a ensures HasAddress(l[k := v], a) <==> HasAddress(l, a) {
      if HasAddress(l, a) { var i :| 0 <= i < |l| && l[i].address == a; assert l[k := v][i].address == a; }
      if HasAddress(l[k := v], a) { var i :| 0 <= i < |l| && l[k := v][i].address == a; assert l[i].address == a; }
    }
  }

  lemma {:induction false} ExitSound(m: Contents, l: seq<Validator>, k: nat)
    requires Sound(m, l) && k < |l|
    ensures Keyed(m) && var m' := DoExit(m, l[k].address);
            Sound(m', l[k := l[k].(exitHeight := 0)]) && Total(m') == Total(m) && forall a :: Load(m', a) == Load(m, a)
  {
    ListIsKeyed(m, l);
    var v := l[k].(exitHeight := 0);
    SetReplaces(m, l, v, k);
    SetIsNeutral(m, l, v, k);
    var m1, l1 := StoreSet(m, v), l[k := v];
    SameLoads(m, m1);
    forall i | 0 <= i < |l1| ensures StakeOk(m1, l1[i]) { assert StakeOk(m, l[i]); }
    SameAddresses(l, k, v);
  }

  /** Money that moves between available balances leaves stakes alone. */
  lemma {:induction false} PaymentSound(m: Contents, l: seq<Validator>, m': Contents)
    requires Sound(m, l) && SameElsewhere(m, m') && Typed(m') && Total(m') == Total(m)
    requires forall a :: Load(m', a).locked == Load(m, a).locked
    ensures Sound(m', l)
  {
    ListUntouched(m, m', l);
    forall i | 0 <= i < |l| ensures StakeOk(m', l[i]) { assert StakeOk(m, l[i]); }
  }

  /** Every affordable operation keeps stakes, deposits and locked balances in agreement and
      the total of all funds unchanged. */
  lemma {:induction false} StepSound(m: Contents, l: seq<Validator>, op: Op) returns (l': seq<Validator>)
    requires Sound(m, l) && Affordable(m, op)
    ensures Keyed(m) && Sound(Step(m, op), l') && Total(Step(m, op)) == Total(m)
  {
    hide Sound, Keyed;
    SoundIsKeyed(m, l);
    l' := l;
    match op {
      case Validate(a, pk, amount) =>
        if !HasAddress(l, a) {
          ValidateSound(m, l, a, pk, amount);
          l' := [Validator(a, pk, amount, amount, 0, 0, [], [])] + l;
        }
      case Deposit(a, amount) =>
        if HasAddress(l, a) {
          var k :| 0 <= k < |l| && l[k].address == a;
          DepositSound(m, l, k, amount);
          l' := l[k := l[k].(balance := l[k].balance + amount, depositQueue := l[k].depositQueue + [LockingBalance(amount, 0)])];
        }
      case Exit(a) =>
        if HasAddress(l, a) {
          var k :| 0 <= k < |l| && l[k].address == a;
          ExitSound(m, l, k);
          l' := l[k := l[k].(exitHeight := 0)];
        }
      case Pay(from, to, amount) => PaySound(m, l, from, to, amount);
      case Block(txs, miner) =>
        if ExecBlock(m, txs, miner).Executed? { BlockSound(m, l, txs, miner); }
    }
  }

  lemma {:induction false} SoundIsKeyed(m: Contents, l: seq<Validator>)
    requires Sound(m, l)
    ensures Keyed(m) && forall a :: RecordOf(m, a).Some? <==> HasAddress(l, a)
  {
    ListIsKeyed(m, l);
  }

  lemma {:induction false} PaySound(m: Contents, l: seq<Validator>, from: Address, to: Address, amount: nat)
    requires Sound(m, l)
    ensures Sound(Transfer(m, from, to, amount), l) && Total(Transfer(m, from, to, amount)) == Total(m)
  {
    TransferConserves(m, from, to, amount);
    PaymentSound(m, l, Transfer(m, from, to, amount));
  }

  /** Executing a block keeps the books balanced exactly when it keeps the total, which it does
      when every transaction conserves funds. */
  lemma {:induction false} BlockSound(m: Contents, l: seq<Validator>, txs: seq<Tx>, miner: Address)
    requires Sound(m, l) && ExecBlock(m, txs, miner).Executed?
    ensures var m' := ExecBlock(m, txs, miner).state;
            && (Sound(m', l) <==> Total(m') == Total(m))
            && (EachConserves(m, txs, miner) ==> Total(m') == Total(m))
  {
    hide Total, EachConserves, TotalKept;
    var m' := ExecBlock(m, txs, miner).state;
    BlockFrame(m, txs, miner);
    BlockConservesFunds(m, txs, miner);
    if Total(m') == Total(m) {
      PaymentSound(m, l, m');
    } else {
      DifferentTotals(Total(m), Total(m'));
    }
  }

  lemma {:induction false} DifferentTotals(a: nat, b: nat)
    requires a < TWO_128 && SameModulo(b, a) && a != b
    ensures b >= TWO_128
  {}

  /** A run of operations, each affordable in the state it meets. */
  ghost predicate RunOf(m: Contents, ops: seq<Op>, m': Contents)
    decreases |ops|
  {
    if |ops| == 0 then m' == m
    else Keyed(m) && Affordable(m, ops[0]) && RunOf(Step(m, ops[0]), ops[1..], m')
  }

  /** Over every run the books stay balanced. */
  lemma {:induction false} RunSound(m: Contents, l: seq<Validator>, ops: seq<Op>, m': Contents) returns (l': seq<Validator>)
    requires Sound(m, l) && RunOf(m, ops, m')
    ensures Sound(m', l') && Total(m') == Total(m)
    decreases |ops|
  {
    hide Sound, Keyed, Affordable, Step;
    if |ops| == 0 {
      l' := l;
    } else {
      var l1 := StepSound(m, l, ops[0]);
      l' := RunSound(Step(m, ops[0]), l1, ops[1..], m');
    }
  }

  const GENESIS_ALLOCATION: nat := 1000000000000000000

  function GenesisValidator(addr: Address, pubkey: seq<int>): (v: Validator) {
    Validator(addr, pubkey, 0, 0, 0, 0, [], [])
  }

  /** The genesis state: one funded account that is also the one validator, with no stake. */
  function Genesis(addr: Address, pubkey: seq<int>): (m: Contents) {
    StoreInsert(AddBalance(map[], addr, GENESIS_ALLOCATION), GenesisValidator(addr, pubkey))
  }

  lemma {:induction false} GenesisSound(addr: Address, pubkey: seq<int>)
    ensures Sound(Genesis(addr, pubkey), [Validator(addr, pubkey, 0, 0, 0, 0, [], [])])
    ensures Total(Genesis(addr, pubkey)) == GENESIS_ALLOCATION && Load(Genesis(addr, pubkey), addr) == Account(GENESIS_ALLOCATION, 0, 0)
  {
    var v := GenesisValidator(addr, pubkey);
    var empty: Contents := map[];
    var m := AddBalance(empty, addr, GENESIS_ALLOCATION);
    NoWrap(0, GENESIS_ALLOCATION);
    TotalStore(empty, addr, Account(GENESIS_ALLOCATION, 0, 0));
    assert Represents(m, []);
    InsertPrepends(m, [], v);
    InsertIsNeutral(m, [], v);
    assert [v] + [] == [v];
    SameLoads(m, Genesis(addr, pubkey));
    assert StakeOk(Genesis(addr, pubkey), v);
  }

  /** The staking entry points on the shared state. */
  class StakingModule {
    const staking: Staking
    const balance: Balance

    constructor (db: StateDB)
      ensures staking.stateDb == db && balance.treedb == db
    {
      staking := new Staking(db);
      balance := new Balance(db);
    }

    ghost predicate Valid(l: seq<Validator>)
      reads this, staking, balance, staking.stateDb, staking.stateDb.db.store
    {
      staking.stateDb == balance.treedb && Represents(staking.stateDb.View(), l) && Typed(staking.stateDb.View())
    }

    method Validate(addr: Address, pubkey: seq<int>, amount: nat, ghost l: seq<Validator>)
      requires Valid(l)
      modifies staking.stateDb`localChanges
      ensures Keyed(old(staking.stateDb.View())) && staking.stateDb.View() == DoValidate(old(staking.stateDb.View()), addr, pubkey, amount)
    {
      ListIsKeyed(staking.stateDb.View(), l);
      var present := staking.GetValidator(addr, l);
      if present.Some? { return; }
      InsertIsNeutral(staking.stateDb.View(), l, NewValidator(addr, pubkey, amount));
      staking.Insert(Validator(addr, pubkey, amount, amount, 0, 0, [], []));
      balance.Lock(addr, amount);
    }

    method Deposit(addr: Address, amount: nat, ghost l: seq<Validator>)
      requires Valid(l)
      modifies staking.stateDb`localChanges
      ensures Keyed(old(staking.stateDb.View())) && staking.stateDb.View() == DoDeposit(old(staking.stateDb.View()), addr, amount)
    {
      ListIsKeyed(staking.stateDb.View(), l);
      var found := staking.GetValidator(addr, l);
      if found.None? { return; }
      var v := found.value;
      ghost var k :| 0 <= k < |l| && l[k] == v;
      v := v.(depositQueue := v.depositQueue + [LockingBalance(amount, 0)]);
      v := v.(balance := Add128(v.balance, amount));
      SetIsNeutral(staking.stateDb.View(), l, v, k);
      staking.SetItem(v);
      balance.Lock(addr, amount);
    }

    method Exit(addr: Address, ghost l: seq<Validator>)
      requires Valid(l)
      modifies staking.stateDb`localChanges
      ensures Keyed(old(staking.stateDb.View())) && staking.stateDb.View() == DoExit(old(staking.stateDb.View()), addr)
    {
      ListIsKeyed(staking.stateDb.View(), l);
      var found := staking.GetValidator(addr, l);
      if found.None? { return; }
      staking.SetItem(found.value.(exitHeight := 0));
    }
  }
}
