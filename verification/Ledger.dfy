/** Account balances in the state: every operation loads an account, changes it and stores
    it back.  Amounts are 128-bit and wrap, nonces are 64-bit and wrap. */
module Ledger {
  import opened Basics
  import opened StateStore

  const TWO_128: nat := 0x1_0000_0000_0000_0000_0000_0000_0000_0000

  /** A 128-bit amount, as transactions carry it. */
  type Amount = x: nat | x < TWO_128

  function Add128(a: nat, b: nat): (r: nat) {
    (a + b) % TWO_128
  }

  function Sub128(a: nat, b: nat): (r: nat) {
    (a - b) % TWO_128
  }

  function Inc64(n: nat): (r: nat) {
    (n + 1) % TWO_64
  }

  lemma {:induction false} NoWrap(a: nat, b: nat)
    ensures a + b < TWO_128 ==> Add128(a, b) == a + b
    ensures b <= a < TWO_128 ==> Sub128(a, b) == a - b
    ensures a < b <= TWO_128 ==> Sub128(a, b) == a - b + TWO_128
    ensures TWO_128 <= a + b < 2 * TWO_128 ==> Add128(a, b) == a + b - TWO_128
  {
    if a < b <= TWO_128 {
      assert (a - b + TWO_128) % TWO_128 == (a - b) % TWO_128;
    }
  }

  function Load(m: Contents, a: Address): (r: Account) {
    if AccountKey(a) in m && m[AccountKey(a)].AccountData? then m[AccountKey(a)].account else Account(0, 0, 0)
  }

  function Store(m: Contents, a: Address, account: Account): (r: Contents)
    ensures Load(r, a) == account
    ensures forall b :: b != a ==> Load(r, b) == Load(m, b)
  {
    m[AccountKey(a) := AccountData(account)]
  }

  function AddBalance(m: Contents, a: Address, value: nat): (r: Contents) {
    Store(m, a, Load(m, a).(balance := Add128(Load(m, a).balance, value)))
  }

  function SubBalance(m: Contents, a: Address, value: nat): (r: Contents) {
    Store(m, a, Load(m, a).(balance := Sub128(Load(m, a).balance, value)))
  }

  function IncNonce(m: Contents, a: Address): (r: Contents) {
    Store(m, a, Load(m, a).(nonce := Inc64(Load(m, a).nonce)))
  }

  function LockBalance(m: Contents, a: Address, value: nat): (r: Contents) {
    var c := Load(m, a);
    Store(m, a, c.(balance := Sub128(c.balance, value), locked := Add128(c.locked, value)))
  }

  function Transfer(m: Contents, from: Address, to: Address, amount: nat): (r: Contents) {
    if Load(m, from).balance >= amount then AddBalance(SubBalance(m, from, amount), to, amount) else m
  }

  function Funds(v: Value): (n: nat) {
    if v.AccountData? then v.account.balance + v.account.locked else 0
  }

  ghost function ChooseKey(m: Contents): (k: Key)
    requires m != map[]
    ensures k in m
  {
    var k :| k in m;
    k
  }

  /** All money in the state: available and locked balances of all accounts. */
  ghost function Total(m: Contents): (n: nat)
    decreases |m|
  {
    if m == map[] then 0 else var k := ChooseKey(m); Funds(m[k]) + Total(m - {k})
  }

  lemma {:induction false} TotalRemove(m: Contents, k: Key)
    requires k in m
    ensures Total(m) == Funds(m[k]) + Total(m - {k})
    decreases |m|
  {
    var c := ChooseKey(m);
    if c != k {
      TotalRemove(m - {c}, k);
      TotalRemove(m - {k}, c);
      assert m - {c} - {k} == m - {k} - {c};
    }
  }

  /** Writing one key moves the total by exactly the difference at that key. */
  lemma {:induction false} TotalUpdate(m: Contents, k: Key, v: Value)
    ensures Total(m[k := v]) == Total(m) - (if k in m then Funds(m[k]) else 0) + Funds(v)
  {
    var m' := m[k := v];
    TotalRemove(m', k);
    if k in m {
      TotalRemove(m, k);
      assert m' - {k} == m - {k};
    } else {
      assert m' - {k} == m;
    }
  }

  /** Accounts are stored under account keys, and only accounts hold funds. */
  ghost predicate Typed(m: Contents) {
    forall k :: k in m ==> (k.AccountKey? <==> m[k].AccountData?)
  }

  lemma {:induction false} TotalStore(m: Contents, a: Address, account: Account)
    requires Typed(m)
    ensures Typed(Store(m, a, account))
    ensures Total(Store(m, a, account)) == Total(m) - Load(m, a).balance - Load(m, a).locked + account.balance + account.locked
  {
    TotalUpdate(m, AccountKey(a), AccountData(account));
  }

  /** No account owns more than there is. */
  lemma {:induction false} LoadWithinTotal(m: Contents, a: Address)
    requires Typed(m)
    ensures Load(m, a).balance + Load(m, a).locked <= Total(m)
  {
    if AccountKey(a) in m { TotalRemove(m, AccountKey(a)); }
  }

  lemma {:induction false} LoadPairWithinTotal(m: Contents, a: Address, b: Address)
    requires Typed(m) && a != b
    ensures Load(m, a).balance + Load(m, b).balance <= Total(m)
  {
    if AccountKey(a) in m {
      TotalRemove(m, AccountKey(a));
      LoadWithinTotal(m - {AccountKey(a)}, b);
    } else {
      LoadWithinTotal(m, b);
    }
  }

  function FundsOf(m: Contents, a: Address): (n: nat) {
    Load(m, a).balance + Load(m, a).locked
  }

  lemma {:induction false} DropKey(m: Contents, k: Key)
    requires Typed(m)
    ensures Typed(m - {k}) && forall a :: FundsOf(m - {k}, a) == if k == AccountKey(a) then 0 else FundsOf(m, a)
    ensures Total(m) == Total(m - {k}) + if k.AccountKey? then FundsOf(m, k.address) else 0
  {
    if k in m { TotalRemove(m, k); } else { assert m - {k} == m; }
  }

  /** The total depends on the loaded accounts only. */
  lemma {:induction false} SameFunds(m: Contents, m': Contents)
    requires Typed(m) && Typed(m') && forall a :: FundsOf(m, a) == FundsOf(m', a)
    ensures Total(m) == Total(m')
    decreases |m| + |m'|
  {
    hide Total, Typed, FundsOf;
    if |m| == 0 && |m'| == 0 {
      assert m == m';
    } else {
      var k :| k in m.Keys + m'.Keys;
      FundsWithout(m, m', k);
      Smaller(m, k);
      Smaller(m', k);
      SameFunds(m - {k}, m' - {k});
    }
  }

  lemma {:induction false} FundsWithout(m: Contents, m': Contents, k: Key)
    requires Typed(m) && Typed(m') && forall a :: FundsOf(m, a) == FundsOf(m', a)
    ensures Typed(m - {k}) && Typed(m' - {k}) && forall a :: FundsOf(m - {k}, a) == FundsOf(m' - {k}, a)
    ensures Total(m) - Total(m - {k}) == Total(m') - Total(m' - {k})
  {
    hide Total, Typed, FundsOf;
    DropKey(m, k);
    DropKey(m', k);
    if k.AccountKey? { assert FundsOf(m, k.address) == FundsOf(m', k.address); }
  }

  lemma {:induction false} Smaller(m: Contents, k: Key)
    ensures |m - {k}| == |m| - if k in m then 1 else 0
  {
    if k in m { assert (m - {k}).Keys == m.Keys - {k}; } else { assert m - {k} == m; }
  }

  /** Nothing outside the accounts differs. */
  ghost predicate SameElsewhere(m: Contents, m': Contents) {
    forall k: Key :: !k.AccountKey? ==> (k in m <==> k in m') && (k in m ==> m[k] == m'[k])
  }

  /** With a total below 2^128, a transfer within the balance moves exactly the amount and
      keeps the total, also when it goes to its own sender; one beyond it changes nothing. */
  lemma {:induction false} TransferConserves(m: Contents, from: Address, to: Address, amount: nat)
    requires Typed(m) && Total(m) < TWO_128
    ensures var m' := Transfer(m, from, to, amount);
            && Typed(m') && Total(m') == Total(m) && SameElsewhere(m, m')
            && (amount > Load(m, from).balance ==> m' == m)
            && (amount <= Load(m, from).balance && from != to ==>
                  && Load(m', from) == Load(m, from).(balance := Load(m, from).balance - amount)
                  && Load(m', to) == Load(m, to).(balance := Load(m, to).balance + amount))
            && (amount <= Load(m, from).balance && from == to ==> Load(m', from) == Load(m, from))
            && (forall a :: a != from && a != to ==> Load(m', a) == Load(m, a))
  {
    hide Total;
    if amount <= Load(m, from).balance {
      var m1 := SubBalance(m, from, amount);
      LoadWithinTotal(m, from);
      NoWrap(Load(m, from).balance, amount);
      TotalStore(m, from, Load(m1, from));
      LoadWithinTotal(m1, to);
      NoWrap(Load(m1, to).balance, amount);
      TotalStore(m1, to, Load(m1, to).(balance := Load(m1, to).balance + amount));
    }
  }

  /** Locking does not check the balance: the total is kept iff the amount was available or
      the locked balance wraps as well. */
  lemma {:induction false} LockConserves(m: Contents, a: Address, value: nat)
    requires Typed(m) && Total(m) < TWO_128 && value < TWO_128
    ensures var m', c := LockBalance(m, a, value), Load(m, a);
            && Typed(m') && SameElsewhere(m, m')
            && (Total(m') == Total(m) <==> value <= c.balance || c.locked + value >= TWO_128)
            && (value <= c.balance ==> Load(m', a) == c.(balance := c.balance - value, locked := c.locked + value))
            && (forall b :: b != a ==> Load(m', b) == Load(m, b))
  {
    var c := Load(m, a);
    LoadWithinTotal(m, a);
    NoWrap(c.balance, value);
    NoWrap(c.locked, value);
    TotalStore(m, a, c.(balance := Sub128(c.balance, value), locked := Add128(c.locked, value)));
  }

  /** Funds differ by a multiple of 2^128. */
  ghost predicate SameModulo(a: int, b: int) {
    a % TWO_128 == b % TWO_128
  }

  /** Adding to a balance adds to the total, up to wrap-around. */
  lemma {:induction false} AddModulo(m: Contents, a: Address, value: nat)
    requires Typed(m)
    ensures Typed(AddBalance(m, a, value)) && SameElsewhere(m, AddBalance(m, a, value))
    ensures SameModulo(Total(AddBalance(m, a, value)), Total(m) + value)
  {
    var c := Load(m, a);
    TotalStore(m, a, c.(balance := Add128(c.balance, value)));
    var q := (c.balance + value) / TWO_128;
    assert Total(AddBalance(m, a, value)) == Total(m) + value - q * TWO_128;
  }

  lemma {:induction false} SubModulo(m: Contents, a: Address, value: nat)
    requires Typed(m)
    ensures Typed(SubBalance(m, a, value)) && SameElsewhere(m, SubBalance(m, a, value))
    ensures SameModulo(Total(SubBalance(m, a, value)), Total(m) - value)
  {
    var c := Load(m, a);
    TotalStore(m, a, c.(balance := Sub128(c.balance, value)));
    var q := (c.balance - value) / TWO_128;
    assert Total(SubBalance(m, a, value)) == Total(m) - value - q * TWO_128;
  }

  lemma {:induction false} ModuloStep(a: int, b: int, c: int, d: int)
    requires SameModulo(a, b - d) && SameModulo(c, a + d)
    ensures SameModulo(c, b)
  {}

  /** Whatever wraps, a transfer changes the total by multiples of 2^128 only. */
  lemma {:induction false} TransferModulo(m: Contents, from: Address, to: Address, amount: nat)
    requires Typed(m)
    ensures Typed(Transfer(m, from, to, amount)) && SameElsewhere(m, Transfer(m, from, to, amount))
    ensures SameModulo(Total(Transfer(m, from, to, amount)), Total(m))
  {
    hide Total, Typed, SameModulo;
    if Load(m, from).balance >= amount {
      var m1 := SubBalance(m, from, amount);
      SubModulo(m, from, amount);
      AddModulo(m1, to, amount);
      ModuloStep(Total(m1), Total(m), Total(AddBalance(m1, to, amount)), amount);
    } else {
      assert SameModulo(Total(m), Total(m)) by { ModuloSame(Total(m)); }
    }
  }

  lemma {:induction false} ModuloSame(a: int)
    ensures SameModulo(a, a)
  {}

  /** The balance module over the shared state. */
  class Balance {
    const treedb: StateDB

    constructor (treedb: StateDB)
      ensures this.treedb == treedb
    {
      this.treedb := treedb;
    }

    method LoadAccount(a: Address) returns (r: Account)
      requires Typed(treedb.View())
      ensures r == Load(treedb.View(), a)
    {
      var data := treedb.GetStorage(AccountKey(a));
      r := if data.Some? then data.value.account else Account(0, 0, 0);
    }

    method SetAccount(a: Address, account: Account)
      modifies treedb`localChanges
      ensures treedb.View() == Store(old(treedb.View()), a, account)
    {
      treedb.SetStorage(AccountKey(a), AccountData(account));
    }

    method AddTo(a: Address, value: nat)
      requires Typed(treedb.View())
      modifies treedb`localChanges
      ensures treedb.View() == AddBalance(old(treedb.View()), a, value) && Typed(treedb.View())
    {
      var account := LoadAccount(a);
      account := account.(balance := Add128(account.balance, value));
      SetAccount(a, account);
    }

    method SubFrom(a: Address, value: nat)
      requires Typed(treedb.View())
      modifies treedb`localChanges
      ensures treedb.View() == SubBalance(old(treedb.View()), a, value) && Typed(treedb.View())
    {
      var account := LoadAccount(a);
      account := account.(balance := Sub128(account.balance, value));
      SetAccount(a, account);
    }

    method Lock(a: Address, value: nat)
      requires Typed(treedb.View())
      modifies treedb`localChanges
      ensures treedb.View() == LockBalance(old(treedb.View()), a, value) && Typed(treedb.View())
    {
      var account := LoadAccount(a);
      account := account.(balance := Sub128(account.balance, value));
      account := account.(locked := Add128(account.locked, value));
      SetAccount(a, account);
    }

    method BumpNonce(a: Address)
      requires Typed(treedb.View())
      modifies treedb`localChanges
      ensures treedb.View() == IncNonce(old(treedb.View()), a) && Typed(treedb.View())
    {
      var account := LoadAccount(a);
      account := account.(nonce := Inc64(account.nonce));
      SetAccount(a, account);
    }

    method Move(from: Address, to: Address, amount: nat)
      requires Typed(treedb.View())
      modifies treedb`localChanges
      ensures treedb.View() == Transfer(old(treedb.View()), from, to, amount) && Typed(treedb.View())
    {
      var account := LoadAccount(from);
      if account.balance >= amount {
        SubFrom(from, amount);
        AddTo(to, amount);
      }
    }
  }
}
