/** The validator list: a doubly linked list whose nodes are storage entries and whose
    pointers are storage keys. */
module ValidatorList {
  import opened Basics
  import opened StateStore

  function KeyOf(v: Validator): (k: Key) {
    ValidatorKey(v.address)
  }

  function PreOf(l: seq<Validator>, i: nat): (r: Option<Key>)
    requires i < |l|
  {
    if i == 0 then None else Some(KeyOf(l[i - 1]))
  }

  function NextOf(l: seq<Validator>, i: nat): (r: Option<Key>)
    requires i < |l|
  {
    if i + 1 == |l| then None else Some(KeyOf(l[i + 1]))
  }

  ghost predicate DistinctAddresses(l: seq<Validator>) {
    forall i, j :: 0 <= i < j < |l| ==> l[i].address != l[j].address
  }

  ghost predicate NodeAt(m: Contents, l: seq<Validator>, i: nat)
    requires i < |l|
  {
    KeyOf(l[i]) in m && m[KeyOf(l[i])] == ListEntry(PreOf(l, i), NextOf(l, i), l[i])
  }

  ghost predicate HasAddress(l: seq<Validator>, a: Address) {
    exists i :: 0 <= i < |l| && l[i].address == a
  }

  ghost predicate HeadIs(m: Contents, l: seq<Validator>) {
    if |l| == 0 then HeadKey !in m else HeadKey in m && m[HeadKey] == HeadRef(KeyOf(l[0]))
  }

  /** The stored entries are exactly the nodes of the list `l`, linked both ways. */
  ghost predicate Represents(m: Contents, l: seq<Validator>) {
    && DistinctAddresses(l) && HeadIs(m, l)
    && (forall i :: 0 <= i < |l| ==> NodeAt(m, l, i))
    && (forall a :: ValidatorKey(a) in m ==> HasAddress(l, a))
  }

  /** The first node can be read. */
  predicate Readable(m: Contents) {
    HeadKey in m ==> m[HeadKey].HeadRef? && m[HeadKey].first in m && m[m[HeadKey].first].ListEntry?
  }

  function StoreInsert(m: Contents, v: Validator): (r: Contents)
    requires Readable(m)
  {
    if HeadKey !in m then m[KeyOf(v) := ListEntry(None, None, v)][HeadKey := HeadRef(KeyOf(v))]
    else
      var head := m[HeadKey].first;
      var m1 := m[KeyOf(v) := ListEntry(None, Some(head), v)];
      var next := m1[head];
      var m2 := m1[KeyOf(next.payload) := ListEntry(Some(KeyOf(v)), next.next, next.payload)];
      m2[HeadKey := HeadRef(KeyOf(v))]
  }

  function StoreSet(m: Contents, v: Validator): (r: Contents)
    requires Readable(m) && (KeyOf(v) in m ==> m[KeyOf(v)].ListEntry?)
  {
    if KeyOf(v) !in m then StoreInsert(m, v)
    else m[KeyOf(v) := ListEntry(m[KeyOf(v)].pre, m[KeyOf(v)].next, v)]
  }

  ghost predicate Neighbour(m: Contents, k: Option<Key>) {
    k.Some? ==> k.value in m && k.value != HeadKey && m[k.value].ListEntry?
  }

  /** The node at `a`, if any, and its neighbours can be read. */
  ghost predicate Deletable(m: Contents, a: Address) {
    ValidatorKey(a) in m ==>
      && m[ValidatorKey(a)].ListEntry?
      && Neighbour(m, m[ValidatorKey(a)].pre) && Neighbour(m, m[ValidatorKey(a)].next)
  }

  /** The node at `a` is gone from between its neighbours. */
  function StoreDelete(m: Contents, a: Address): (r: Contents)
    requires Deletable(m, a)
  {
    if ValidatorKey(a) !in m then m
    else
      var item := m[ValidatorKey(a)];
      var m1 :=
        if item.pre.Some? then
          var pre := m[item.pre.value];
          m[item.pre.value := ListEntry(pre.pre, item.next, pre.payload)]
        else if item.next.Some? then m[HeadKey := HeadRef(item.next.value)]
        else m - {HeadKey};
      var m2 :=
        if item.next.Some? then
          var next := m1[item.next.value];
          m1[item.next.value := ListEntry(item.pre, next.next, next.payload)]
        else m1;
      m2 - {ValidatorKey(a)}
  }

  /** Accounts are not affected. */
  ghost predicate SameAccounts(m: Contents, m': Contents) {
    forall a :: (AccountKey(a) in m <==> AccountKey(a) in m') && (AccountKey(a) in m ==> m[AccountKey(a)] == m'[AccountKey(a)])
  }

  lemma {:induction false} AddressIn(m: Contents, l: seq<Validator>, a: Address)
    requires Represents(m, l)
    ensures ValidatorKey(a) in m <==> HasAddress(l, a)
  {
    if HasAddress(l, a) {
      var i :| 0 <= i < |l| && l[i].address == a;
      assert NodeAt(m, l, i);
    }
  }

  lemma {:induction false} ListReadable(m: Contents, l: seq<Validator>)
    requires Represents(m, l)
    ensures Readable(m)
  {
    if |l| > 0 { assert NodeAt(m, l, 0); }
  }

  lemma {:induction false} InsertedNode(m: Contents, l: seq<Validator>, v: Validator, i: nat)
    requires Represents(m, l) && Readable(m) && !HasAddress(l, v.address) && i <= |l|
    ensures NodeAt(StoreInsert(m, v), [v] + l, i)
  {
    if |l| > 0 { assert NodeAt(m, l, 0); }
    if i >= 1 {
      assert NodeAt(m, l, i - 1);
      assert l[i - 1].address != v.address;
    }
  }

  /** Inserting an absent address prepends it. */
  lemma {:induction false} InsertPrepends(m: Contents, l: seq<Validator>, v: Validator)
    requires Represents(m, l) && !HasAddress(l, v.address)
    ensures Readable(m) && Represents(StoreInsert(m, v), [v] + l) && SameAccounts(m, StoreInsert(m, v))
  {
    hide StoreInsert, NodeAt, Readable, HasAddress, Represents;
    ListReadable(m, l);
    var m', l' := StoreInsert(m, v), [v] + l;
    InsertedKeys(m, l, v);
    DistinctPrepended(m, l, v);
    forall i | 0 <= i < |l'| ensures NodeAt(m', l', i) { InsertedNode(m, l, v, i); }
    forall a | ValidatorKey(a) in m' ensures HasAddress(l', a) {
      if a != v.address { AddressIn(m, l, a); }
      AddressPrepended(l, v, a);
    }
    Represented(m', l');
  }

  lemma {:induction false} Represented(m: Contents, l: seq<Validator>)
    requires DistinctAddresses(l) && HeadIs(m, l)
    requires forall i :: 0 <= i < |l| ==> NodeAt(m, l, i)
    requires forall a :: ValidatorKey(a) in m ==> HasAddress(l, a)
    ensures Represents(m, l)
  {
    hide NodeAt, HasAddress;
  }

  /** Insertion adds one validator entry and moves the head. */
  lemma {:induction false} InsertedKeys(m: Contents, l: seq<Validator>, v: Validator)
    requires Represents(m, l) && Readable(m)
    ensures var m' := StoreInsert(m, v);
            && HeadIs(m', [v] + l) && SameAccounts(m, m')
            && forall a :: ValidatorKey(a) in m' <==> ValidatorKey(a) in m || a == v.address
  {
    hide HasAddress;
    if |l| > 0 { assert NodeAt(m, l, 0); }
  }

  lemma {:induction false} AddressPrepended(l: seq<Validator>, v: Validator, a: Address)
    ensures HasAddress([v] + l, a) <==> HasAddress(l, a) || a == v.address
  {
    if HasAddress(l, a) {
      var i :| 0 <= i < |l| && l[i].address == a;
      assert ([v] + l)[i + 1].address == a;
    }
    if a == v.address { assert ([v] + l)[0].address == a; }
  }

  lemma {:induction false} DistinctPrepended(m: Contents, l: seq<Validator>, v: Validator)
    requires Represents(m, l) && !HasAddress(l, v.address)
    ensures DistinctAddresses([v] + l)
  {
    hide NodeAt;
  }

  lemma {:induction false} FollowsCycle(m': Contents, l': seq<Validator>, v: Validator, l: seq<Validator>, k: nat, i: nat)
    requires Represents(m', l') && |l'| > 0 && l'[0].address == v.address
    requires k < |l| && l[k].address == v.address && DistinctAddresses(l)
    requires KeyOf(v) in m' && m'[KeyOf(v)].ListEntry? && m'[KeyOf(v)].next == Some(KeyOf(l[0]))
    requires forall j :: 0 <= j < k ==> KeyOf(l[j]) in m' && m'[KeyOf(l[j])].ListEntry? && m'[KeyOf(l[j])].next == Some(KeyOf(l[j + 1]))
    requires i <= k
    ensures i + 1 < |l'| && l'[i + 1].address == l[i].address
    decreases i
  {
    if i == 0 {
      assert NodeAt(m', l', 0);
    } else {
      FollowsCycle(m', l', v, l, k, i - 1);
      assert NodeAt(m', l', i);
      var j := i - 1;
      assert KeyOf(l'[i]) == KeyOf(l[j]) && m'[KeyOf(l[j])].next == Some(KeyOf(l[j + 1]));
    }
  }

  /** Inserting an address that is already there ties the list into a knot: no finite list
      is represented any more. */
  lemma {:induction false} InsertPresentBreaks(m: Contents, l: seq<Validator>, v: Validator, l': seq<Validator>)
    requires Represents(m, l) && HasAddress(l, v.address)
    ensures Readable(m) && !Represents(StoreInsert(m, v), l')
  {
    ListReadable(m, l);
    var m' := StoreInsert(m, v);
    var k :| 0 <= k < |l| && l[k].address == v.address;
    assert NodeAt(m, l, 0) && NodeAt(m, l, k);
    if k == 0 {
      assert m'[KeyOf(v)].pre.Some?;
      assert |l'| > 0 && KeyOf(l'[0]) == KeyOf(v) ==> !NodeAt(m', l', 0);
    } else {
      forall j | 0 <= j < k
        ensures KeyOf(l[j]) in m' && m'[KeyOf(l[j])].ListEntry? && m'[KeyOf(l[j])].next == Some(KeyOf(l[j + 1]))
      {
        assert NodeAt(m, l, j);
      }
      if Represents(m', l') {
        FollowsCycle(m', l', v, l, k, k);
        assert false;
      }
    }
  }

  /** The exact condition under which inserting leaves a list behind. */
  lemma {:induction false} InsertKeepsListIffAbsent(m: Contents, l: seq<Validator>, v: Validator)
    requires Represents(m, l)
    ensures Readable(m)
    ensures (exists l' :: Represents(StoreInsert(m, v), l')) <==> !HasAddress(l, v.address)
  {
    ListReadable(m, l);
    if HasAddress(l, v.address) {
      forall l' ensures !Represents(StoreInsert(m, v), l') { InsertPresentBreaks(m, l, v, l'); }
    } else {
      InsertPrepends(m, l, v);
    }
  }

  /** Setting an item replaces it where it is. */
  lemma {:induction false} SetReplaces(m: Contents, l: seq<Validator>, v: Validator, k: nat)
    requires Represents(m, l) && k < |l| && l[k].address == v.address
    ensures Readable(m) && KeyOf(v) in m && m[KeyOf(v)].ListEntry?
    ensures Represents(StoreSet(m, v), l[k := v]) && SameAccounts(m, StoreSet(m, v))
  {
    ListReadable(m, l);
    assert NodeAt(m, l, k);
    var m', l' := StoreSet(m, v), l[k := v];
    forall i | 0 <= i < |l'| ensures NodeAt(m', l', i) { assert NodeAt(m, l, i); }
    forall a | ValidatorKey(a) in m' ensures HasAddress(l', a) {
      AddressIn(m, l, a);
      var i :| 0 <= i < |l| && l[i].address == a;
      assert l'[i].address == a;
    }
  }

  lemma {:induction false} NodeNeighbours(m: Contents, l: seq<Validator>, k: nat)
    requires Represents(m, l) && k < |l|
    ensures KeyOf(l[k]) in m && m[KeyOf(l[k])] == ListEntry(PreOf(l, k), NextOf(l, k), l[k])
    ensures Neighbour(m, PreOf(l, k)) && Neighbour(m, NextOf(l, k))
  {
    assert NodeAt(m, l, k);
    if k > 0 { assert NodeAt(m, l, k - 1); }
    if k + 1 < |l| { assert NodeAt(m, l, k + 1); }
  }

  /** Deleting removes exactly that node and links its neighbours to each other. */
  lemma {:induction false} DeleteRemoves(m: Contents, l: seq<Validator>, k: nat)
    requires Represents(m, l) && k < |l|
    ensures Deletable(m, l[k].address)
    ensures Represents(StoreDelete(m, l[k].address), l[..k] + l[k + 1..]) && SameAccounts(m, StoreDelete(m, l[k].address))
  {
    NodeNeighbours(m, l, k);
    var m', l' := StoreDelete(m, l[k].address), l[..k] + l[k + 1..];
    forall i | 0 <= i < |l'| ensures NodeAt(m', l', i) {
      var j := if i < k then i else i + 1;
      assert l'[i] == l[j] && NodeAt(m, l, j);
      DeletedNode(m, l, k, i);
    }
    DeletedAddresses(m, l, k);
    assert HeadIs(m', l') by { if |l'| > 0 { assert NodeAt(m, l, 0); } }
  }

  /** Any address may be deleted from a represented list; an absent one changes nothing. */
  lemma {:induction false} ListIsDeletable(m: Contents, l: seq<Validator>, a: Address)
    requires Represents(m, l)
    ensures Deletable(m, a) && (!HasAddress(l, a) ==> StoreDelete(m, a) == m)
  {
    AddressIn(m, l, a);
    if HasAddress(l, a) {
      var k :| 0 <= k < |l| && l[k].address == a;
      NodeNeighbours(m, l, k);
    }
  }

  lemma {:induction false} DeletedNode(m: Contents, l: seq<Validator>, k: nat, i: nat)
    requires Represents(m, l) && k < |l| && i < |l| - 1
    requires KeyOf(l[k]) in m && m[KeyOf(l[k])] == ListEntry(PreOf(l, k), NextOf(l, k), l[k])
    requires Neighbour(m, PreOf(l, k)) && Neighbour(m, NextOf(l, k))
    ensures NodeAt(StoreDelete(m, l[k].address), l[..k] + l[k + 1..], i)
  {
    var l' := l[..k] + l[k + 1..];
    var j := if i < k then i else i + 1;
    assert NodeAt(m, l, j);
    DroppedAt(l, k, i);
    if i > 0 { DroppedAt(l, k, i - 1); }
    if i + 1 < |l'| { DroppedAt(l, k, i + 1); }
  }

  lemma {:induction false} DroppedAt(l: seq<Validator>, k: nat, i: nat)
    requires k < |l| && i < |l| - 1
    ensures (l[..k] + l[k + 1..])[i] == l[if i < k then i else i + 1]
  {}

  lemma {:induction false} DeletedAddresses(m: Contents, l: seq<Validator>, k: nat)
    requires Represents(m, l) && k < |l|
    requires KeyOf(l[k]) in m && m[KeyOf(l[k])] == ListEntry(PreOf(l, k), NextOf(l, k), l[k])
    requires Neighbour(m, PreOf(l, k)) && Neighbour(m, NextOf(l, k))
    ensures forall a :: ValidatorKey(a) in StoreDelete(m, l[k].address) ==> HasAddress(l[..k] + l[k + 1..], a)
  {
    var m', l' := StoreDelete(m, l[k].address), l[..k] + l[k + 1..];
    forall a | ValidatorKey(a) in m' ensures HasAddress(l', a) {
      AddressIn(m, l, a);
      var i :| 0 <= i < |l| && l[i].address == a;
      assert i != k;
      assert l'[if i < k then i else i - 1].address == a;
    }
  }

  /** A store represents at most one list. */
  lemma {:induction false} ListIsUnique(m: Contents, l: seq<Validator>, l': seq<Validator>, i: nat)
    requires Represents(m, l) && Represents(m, l') && i <= |l|
    ensures i <= |l'| && l[..i] == l'[..i]
    decreases i
  {
    if i > 0 {
      ListIsUnique(m, l, l', i - 1);
      assert NodeAt(m, l, i - 1);
      if i > 1 {
        assert NodeAt(m, l, i - 2) && NodeAt(m, l', i - 2);
        assert l[..i - 1][i - 2] == l'[..i - 1][i - 2];
      }
      assert NodeAt(m, l', i - 1);
    }
  }

  lemma {:induction false} SameList(m: Contents, l: seq<Validator>, l': seq<Validator>)
    requires Represents(m, l) && Represents(m, l')
    ensures l == l'
  {
    ListIsUnique(m, l, l', |l|);
    ListIsUnique(m, l', l, |l'|);
    assert l[..|l|] == l && l'[..|l'|] == l';
  }

  /** The staking module's list operations on the shared state. */
  class Staking {
    const stateDb: StateDB

    constructor (stateDb: StateDB)
      ensures this.stateDb == stateDb
    {
      this.stateDb := stateDb;
    }

    method Insert(item: Validator)
      requires Readable(stateDb.View())
      modifies stateDb`localChanges
      ensures stateDb.View() == StoreInsert(old(stateDb.View()), item)
    {
      var head := stateDb.GetStorage(HeadKey);
      if head.None? {
        stateDb.SetStorage(KeyOf(item), ListEntry(None, None, item));
        stateDb.SetStorage(HeadKey, HeadRef(KeyOf(item)));
      } else {
        var headRef := head.value.first;
        stateDb.SetStorage(KeyOf(item), ListEntry(None, Some(headRef), item));
        var found := stateDb.GetStorage(headRef);
        var next := found.value;
        stateDb.SetStorage(KeyOf(next.payload), ListEntry(Some(KeyOf(item)), next.next, next.payload));
        stateDb.SetStorage(HeadKey, HeadRef(KeyOf(item)));
      }
    }

    method SetItem(item: Validator)
      requires Readable(stateDb.View()) && (KeyOf(item) in stateDb.View() ==> stateDb.View()[KeyOf(item)].ListEntry?)
      modifies stateDb`localChanges
      ensures stateDb.View() == StoreSet(old(stateDb.View()), item)
    {
      var found := stateDb.GetStorage(KeyOf(item));
      if found.None? {
        Insert(item);
      } else {
        stateDb.SetStorage(KeyOf(item), ListEntry(found.value.pre, found.value.next, item));
      }
    }

    method Delete(addr: Address)
      requires Deletable(stateDb.View(), addr)
      modifies stateDb`localChanges
      ensures stateDb.View() == StoreDelete(old(stateDb.View()), addr)
    {
      var found := stateDb.GetStorage(ValidatorKey(addr));
      if found.None? { return; }
      var item := found.value;
      if item.pre.Some? {
        var pre := stateDb.GetStorage(item.pre.value);
        stateDb.SetStorage(item.pre.value, ListEntry(pre.value.pre, item.next, pre.value.payload));
      } else if item.next.Some? {
        stateDb.SetStorage(HeadKey, HeadRef(item.next.value));
      } else {
        stateDb.RemoveStorage(HeadKey);
      }
      if item.next.Some? {
        var next := stateDb.GetStorage(item.next.value);
        stateDb.SetStorage(item.next.value, ListEntry(item.pre, next.value.next, next.value.payload));
      }
      stateDb.RemoveStorage(ValidatorKey(addr));
    }

    /** Follows the links from the head and returns exactly the represented list. */
    method ValidatorSet(ghost l: seq<Validator>) returns (items: seq<Validator>)
      requires Represents(stateDb.View(), l)
      ensures items == l
    {
      items := [];
      var head := stateDb.GetStorage(HeadKey);
      if head.None? { return; }
      var nextRef := Some(head.value.first);
      while nextRef.Some?
        invariant |items| <= |l| && items == l[..|items|]
        invariant nextRef == if |items| == |l| then None else Some(KeyOf(l[|items|]))
        decreases |l| - |items|
      {
        assert NodeAt(stateDb.View(), l, |items|);
        var found := stateDb.GetStorage(nextRef.value);
        items := items + [found.value.payload];
        nextRef := found.value.next;
      }
    }

    method GetValidator(addr: Address, ghost l: seq<Validator>) returns (r: Option<Validator>)
      requires Represents(stateDb.View(), l)
      ensures r.Some? <==> HasAddress(l, addr)
      ensures r.Some? ==> r.value in l && r.value.address == addr
    {
      AddressIn(stateDb.View(), l, addr);
      var found := stateDb.GetStorage(ValidatorKey(addr));
      if found.None? { return None; }
      ghost var k :| 0 <= k < |l| && l[k].address == addr;
      assert NodeAt(stateDb.View(), l, k);
      r := Some(found.value.payload);
    }
  }
}
