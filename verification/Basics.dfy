/** Small definitions that several modules share. */
module Basics {

  datatype Option<+T> = None | Some(value: T)

  const TWO_64: nat := 0x1_0000_0000_0000_0000

  function Pow256(k: nat): (n: nat)
    ensures n > 0
  {
    if k == 0 then 1 else 256 * Pow256(k - 1)
  }

  lemma {:induction false} EightBytes()
    ensures Pow256(8) == TWO_64
  {
    assert Pow256(1) == 256;
    assert Pow256(2) == 65536;
    assert Pow256(4) == 65536 * 65536;
  }

  function Insert<T>(s: seq<T>, i: nat, x: T): (r: seq<T>)
    requires i <= |s|
  {
    s[..i] + [x] + s[i..]
  }

  lemma {:induction false} InsertMembers<T>(s: seq<T>, i: nat, x: T)
    requires i <= |s|
    ensures forall t :: t in Insert(s, i, x) <==> t in s || t == x
  {
    assert s == s[..i] + s[i..];
  }

  ghost predicate Distinct<T>(s: seq<T>) {
    forall i, j :: 0 <= i < j < |s| ==> s[i] != s[j]
  }

  /** `order` lists each of the keys once. */
  ghost predicate Lists<K(!new)>(order: seq<K>, keys: set<K>) {
    (forall k :: k in order <==> k in keys) && Distinct(order)
  }

  /** Some enumeration of a set. */
  method Enumerate<K(==, !new)>(keys: set<K>) returns (order: seq<K>)
    ensures Lists(order, keys)
  {
    order := [];
    var rest := keys;
    while rest != {}
      invariant rest <= keys && forall k :: k in order <==> k in keys && k !in rest
      invariant Distinct(order)
      decreases rest
    {
      var k :| k in rest;
      assert k !in order;
      order := order + [k];
      rest := rest - {k};
    }
  }
}
