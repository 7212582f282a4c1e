/** Trie node stores: a reference-counting memory cache in front of a key-value backend,
    once with plain nodes (archive) and once with persisted reference counts (caching). */
module HashBackends {
  import opened Basics

  type Hash = nat
  type Bytes = seq<int>

  const TWO_31: int := 0x8000_0000
  const TWO_32: int := 0x1_0000_0000

  /** The 32-bit signed value with the same low bits: casts and wrapping sums end here. */
  function AsI32(x: int): (r: int)
    ensures -TWO_31 <= r < TWO_31 && (-TWO_31 <= x < TWO_31 ==> r == x)
  {
    var m := x % TWO_32;
    if m < TWO_31 then m else m - TWO_32
  }

  /** Adding before or after reducing to 32 bits is the same. */
  lemma {:induction false} AsI32Add(x: int, d: int)
    ensures AsI32(AsI32(x) + d) == AsI32(x + d)
  {
    var q := (x - AsI32(x)) / TWO_32;
    assert x == AsI32(x) + q * TWO_32;
    assert (x + d) % TWO_32 == (AsI32(x) + d) % TWO_32;
  }

  /** A cached node and the balance of insertions over removals. */
  datatype Cell = Cell(value: Bytes, rc: int)

  type Cache = map<Hash, Cell>

  /** Node hashing with its null node, which every cache answers without storing it. */
  datatype Hasher = Hasher(hashOf: Bytes -> Hash, nullData: Bytes) {
    function NullKey(): (k: Hash) {
      hashOf(nullData)
    }

    ghost predicate Injective() {
      forall a, b :: hashOf(a) == hashOf(b) ==> a == b
    }
  }

  function Raw(h: Hasher, cached: Cache, key: Hash): (r: Option<Cell>) {
    if key == h.NullKey() then Some(Cell(h.nullData, 1))
    else if key in cached then Some(cached[key]) else None
  }

  function Emplaced(h: Hasher, cached: Cache, key: Hash, value: Bytes): (r: Cache) {
    if value == h.nullData then cached
    else if key in cached then
      var c := cached[key];
      cached[key := Cell(if c.rc <= 0 then value else c.value, AsI32(c.rc + 1))]
    else cached[key := Cell(value, 1)]
  }

  function Removed(h: Hasher, cached: Cache, key: Hash): (r: Cache) {
    if key == h.NullKey() then cached
    else if key in cached then cached[key := cached[key].(rc := AsI32(cached[key].rc - 1))]
    else cached[key := Cell([], -1)]
  }

  /** Counts are 32-bit, cached nodes that count as present are stored under their own hash,
      and the null node is never stored. */
  ghost predicate ContentAddressed(h: Hasher, cached: Cache) {
    && h.NullKey() !in cached
    && forall k :: k in cached ==> -TWO_31 <= cached[k].rc < TWO_31 && (cached[k].rc > 0 ==> h.hashOf(cached[k].value) == k)
  }

  /** One more removal makes the count wrap to positive over a value that is not the node. */
  ghost predicate Underflows(h: Hasher, cached: Cache, key: Hash) {
    key != h.NullKey() && key in cached && cached[key].rc == -TWO_31 && h.hashOf(cached[key].value) != key
  }

  /** Every insertion keeps the cache content-addressed, and every removal unless the count
      wraps over a wrong value. */
  lemma {:induction false} CacheStaysAddressed(h: Hasher, cached: Cache, value: Bytes, key: Hash)
    requires h.Injective() && ContentAddressed(h, cached)
    ensures ContentAddressed(h, Emplaced(h, cached, h.hashOf(value), value))
    ensures ContentAddressed(h, Removed(h, cached, key)) <==> !Underflows(h, cached, key)
  {
    hide Emplaced, Removed, Underflows, ContentAddressed;
    EmplacedAddressed(h, cached, value);
    RemovedAddressed(h, cached, key);
  }

  lemma {:induction false} EmplacedAddressed(h: Hasher, cached: Cache, value: Bytes)
    requires h.Injective() && ContentAddressed(h, cached)
    ensures ContentAddressed(h, Emplaced(h, cached, h.hashOf(value), value))
  {}

  lemma {:induction false} RemovedAddressed(h: Hasher, cached: Cache, key: Hash)
    requires h.Injective() && ContentAddressed(h, cached)
    ensures ContentAddressed(h, Removed(h, cached, key)) <==> !Underflows(h, cached, key)
  {
    if Underflows(h, cached, key) { assert Removed(h, cached, key)[key].rc == TWO_31 - 1; }
  }

  /** Insertions minus removals of a key since the last commit. */
  function NetChange(cached: Cache, key: Hash): (n: int) {
    if key in cached then cached[key].rc else 0
  }

  /** An insertion counts one up for its node and a removal one down for its key, in 32 bits;
      the null node is never counted, and no other key is affected. */
  lemma {:induction false} CountsMove(h: Hasher, cached: Cache, value: Bytes, key: Hash, k: Hash)
    ensures NetChange(Emplaced(h, cached, h.hashOf(value), value), k) ==
              if k == h.hashOf(value) && value != h.nullData then AsI32(NetChange(cached, k) + 1) else NetChange(cached, k)
    ensures NetChange(Removed(h, cached, key), k) ==
              if k == key && key != h.NullKey() then AsI32(NetChange(cached, k) - 1) else NetChange(cached, k)
  {}

  function ArchiveGet(h: Hasher, cached: Cache, backend: map<Hash, Bytes>, key: Hash): (r: Option<Bytes>) {
    var k := Raw(h, cached, key);
    if k.Some? && k.value.rc > 0 then Some(k.value.value)
    else if key in backend then Some(backend[key]) else None
  }

  ghost predicate Preimages(h: Hasher, backend: map<Hash, Bytes>) {
    forall k :: k in backend ==> h.hashOf(backend[k]) == k
  }

  /** The backend once the cells of `done` have been written out. */
  ghost predicate Drained(h: Hasher, cached: Cache, before: map<Hash, Bytes>, after: map<Hash, Bytes>, done: seq<Hash>) {
    && Preimages(h, after)
    && (forall k :: k in after <==> k in before || (k in done && k in cached && cached[k].rc > 0))
    && (forall k :: k in before ==> k in after && after[k] == before[k])
  }

  lemma {:induction false} DrainNext(h: Hasher, cached: Cache, before: map<Hash, Bytes>, after: map<Hash, Bytes>, done: seq<Hash>, key: Hash)
    requires h.Injective() && ContentAddressed(h, cached) && Preimages(h, before)
    requires Drained(h, cached, before, after, done) && key in cached
    ensures Drained(h, cached, before, if cached[key].rc > 0 then after[key := cached[key].value] else after, done + [key])
  {
    if key in before { assert h.hashOf(before[key]) == key; }
  }

  lemma {:induction false} DrainedReads(h: Hasher, cached: Cache, before: map<Hash, Bytes>, after: map<Hash, Bytes>, done: seq<Hash>)
    requires h.Injective() && ContentAddressed(h, cached) && Preimages(h, before)
    requires Drained(h, cached, before, after, done) && forall k :: k in cached ==> k in done
    ensures forall k :: ArchiveGet(h, map[], after, k) == ArchiveGet(h, cached, before, k)
  {
    forall k ensures ArchiveGet(h, map[], after, k) == ArchiveGet(h, cached, before, k) {
      if k in cached && cached[k].rc > 0 { assert k in after && h.hashOf(after[k]) == k; }
    }
  }

  class ArchiveDB {
    const hasher: Hasher
    var cached: Cache
    var backend: map<Hash, Bytes>

    /** The backend holds nodes under their own hash too. */
    ghost predicate Valid()
      reads this
    {
      hasher.Injective() && ContentAddressed(hasher, cached) && Preimages(hasher, backend)
    }

    constructor (hasher: Hasher)
      requires hasher.Injective()
      ensures Valid() && backend == map[] && cached == map[] && this.hasher == hasher
    {
      this.hasher, cached, backend := hasher, map[], map[];
    }

    /** A node's hash identifies it for good: whatever is readable is the preimage. */
    method Get(key: Hash) returns (r: Option<Bytes>)
      requires Valid()
      ensures r == ArchiveGet(hasher, cached, backend, key)
      ensures r.Some? ==> hasher.hashOf(r.value) == key
    {
      r := ArchiveGet(hasher, cached, backend, key);
    }

    method Insert(value: Bytes) returns (key: Hash)
      requires Valid()
      modifies this`cached
      ensures Valid() && key == hasher.hashOf(value) && cached == Emplaced(hasher, old(cached), key, value)
      ensures forall k :: NetChange(cached, k) ==
                            if k == key && value != hasher.nullData then AsI32(NetChange(old(cached), k) + 1) else NetChange(old(cached), k)
    {
      key := hasher.hashOf(value);
      forall k { CountsMove(hasher, cached, value, key, k); }
      CacheStaysAddressed(hasher, cached, value, key);
      cached := Emplaced(hasher, cached, key, value);
    }

    method Remove(key: Hash)
      requires Valid()
      modifies this`cached
      ensures Valid() <==> !Underflows(hasher, old(cached), key)
      ensures cached == Removed(hasher, old(cached), key)
      ensures forall k :: NetChange(cached, k) ==
                            if k == key && key != hasher.NullKey() then AsI32(NetChange(old(cached), k) - 1) else NetChange(old(cached), k)
    {
      forall k { CountsMove(hasher, cached, [], key, k); }
      CacheStaysAddressed(hasher, cached, [], key);
      cached := Removed(hasher, cached, key);
    }

    /** Writes the cache out, in any order: no read changes, and nothing persisted is lost
        or changed. */
    method Commit(order: seq<Hash>)
      requires Valid() && Lists(order, cached.Keys)
      modifies this
      ensures Valid() && cached == map[]
      ensures forall k :: ArchiveGet(hasher, cached, backend, k) == ArchiveGet(hasher, old(cached), old(backend), k)
      ensures forall k :: k in old(backend) ==> k in backend && backend[k] == old(backend)[k]
      ensures forall k :: k in backend && k !in old(backend) ==> k in old(cached) && old(cached)[k].rc > 0
    {
      hide Hasher.Injective, ArchiveGet, ContentAddressed, Preimages;
      var i := 0;
      while i < |order|
        invariant 0 <= i <= |order| && cached == old(cached)
        invariant Drained(hasher, cached, old(backend), backend, order[..i])
      {
        var key := order[i];
        assert order[..i + 1] == order[..i] + [key];
        DrainNext(hasher, cached, old(backend), backend, order[..i], key);
        if cached[key].rc > 0 { backend := backend[key := cached[key].value]; }
        i := i + 1;
      }
      assert order[..i] == order;
      DrainedReads(hasher, cached, old(backend), backend, order);
      cached := map[];
      assert ContentAddressed(hasher, cached) by { EmptyAddressed(hasher); }
    }
  }

  lemma {:induction false} EmptyAddressed(h: Hasher)
    ensures ContentAddressed(h, map[])
  {}

  /** A persisted node with its reference count. */
  datatype Payload = Payload(count: nat, value: Bytes)

  function CountOf(backend: map<Hash, Payload>, key: Hash): (n: nat) {
    if key in backend then backend[key].count else 0
  }

  /** The sum the code forms of a persisted count and a change. */
  function Sum32(count: nat, rc: int): (n: int) {
    AsI32(AsI32(count) + rc)
  }

  /** The sum is right exactly up to multiples of 2^32. */
  lemma {:induction false} SumWraps(count: nat, rc: int)
    ensures Sum32(count, rc) == AsI32(count + rc) && Sum32(count, rc) % TWO_32 == (count + rc) % TWO_32
    ensures -TWO_31 <= count + rc < TWO_31 ==> Sum32(count, rc) == count + rc
  {
    var q := count / TWO_32;
    assert count == q * TWO_32 + count % TWO_32;
  }

  function CachingGet(h: Hasher, cached: Cache, backend: map<Hash, Payload>, key: Hash): (r: Option<Bytes>) {
    var k := Raw(h, cached, key);
    if k.Some? && k.value.rc > 0 then Some(k.value.value)
    else
      var memRc := if k.Some? then k.value.rc else 0;
      if key in backend && Sum32(backend[key].count, memRc) > 0 then Some(backend[key].value) else None
  }

  predicate CachingContains(h: Hasher, cached: Cache, backend: map<Hash, Payload>, key: Hash) {
    var k := Raw(h, cached, key);
    if k.Some? && k.value.rc > 0 then true
    else
      var memRc := if k.Some? then k.value.rc else 0;
      key in backend && Sum32(backend[key].count, memRc) > 0
  }

  /** `contains` answers yes exactly when `get` finds something. */
  lemma {:induction false} ContainsIsGet(h: Hasher, cached: Cache, backend: map<Hash, Payload>, key: Hash)
    ensures CachingContains(h, cached, backend, key) <==> CachingGet(h, cached, backend, key).Some?
  {}

  /** Backend entries hold the preimage of their key and a 32-bit count. */
  ghost predicate Addressed(h: Hasher, backend: map<Hash, Payload>) {
    forall k :: k in backend ==> h.hashOf(backend[k].value) == k && backend[k].count < TWO_32
  }

  /** Writing the change of `k` out does not panic. */
  ghost predicate Passes(cached: Cache, backend: map<Hash, Payload>, k: Hash) {
    NetChange(cached, k) == 0 || Sum32(CountOf(backend, k), NetChange(cached, k)) >= 0
  }

  /** The count of `k` once its change is written out. */
  function NewCount(cached: Cache, backend: map<Hash, Payload>, k: Hash): (n: int) {
    if NetChange(cached, k) == 0 then CountOf(backend, k) else Sum32(CountOf(backend, k), NetChange(cached, k))
  }

  /** An insertion makes the count of `k` wrap to zero. */
  ghost predicate WrapsToZero(cached: Cache, backend: map<Hash, Payload>, k: Hash) {
    NetChange(cached, k) > 0 && Sum32(CountOf(backend, k), NetChange(cached, k)) == 0
  }

  /** While counts stay below 2^31 the code does what it says: it panics exactly for negative
      counts, adds the changes, and never wraps. */
  lemma {:induction false} PlainCounts(cached: Cache, backend: map<Hash, Payload>, k: Hash)
    requires CountOf(backend, k) < TWO_31 && -TWO_31 <= CountOf(backend, k) + NetChange(cached, k) < TWO_31
    ensures Passes(cached, backend, k) <==> CountOf(backend, k) + NetChange(cached, k) >= 0
    ensures NewCount(cached, backend, k) == CountOf(backend, k) + NetChange(cached, k) && !WrapsToZero(cached, backend, k)
  {
    SumWraps(CountOf(backend, k), NetChange(cached, k));
  }

  /** A read finds a node exactly when its persisted count plus its pending changes is
      positive, and then finds the node with that hash. */
  lemma {:induction false} ReadsCountedNodes(h: Hasher, cached: Cache, backend: map<Hash, Payload>, key: Hash)
    requires h.Injective() && ContentAddressed(h, cached) && Addressed(h, backend) && key != h.NullKey()
    ensures CachingGet(h, cached, backend, key).Some? ==> h.hashOf(CachingGet(h, cached, backend, key).value) == key
    ensures CachingGet(h, cached, backend, key).Some? <==>
              NetChange(cached, key) > 0 || Sum32(CountOf(backend, key), NetChange(cached, key)) > 0
    ensures CountOf(backend, key) < TWO_31 && CountOf(backend, key) + NetChange(cached, key) < TWO_31 ==>
              (CachingGet(h, cached, backend, key).Some? <==> CountOf(backend, key) + NetChange(cached, key) > 0)
  {
    SumWraps(CountOf(backend, key), NetChange(cached, key));
  }

  /** What a key's entry becomes when its cell is written out. */
  function Persisted(backend: map<Hash, Payload>, key: Hash, c: Cell): (r: Option<Payload>) {
    if key in backend then
      var total := Sum32(backend[key].count, c.rc);
      if total < 0 then None else Some(Payload(total, backend[key].value))
    else if c.rc < 0 then None
    else Some(Payload(c.rc, c.value))
  }

  /** One key's entry after its cell was written out. */
  ghost predicate Written(cached: Cache, before: map<Hash, Payload>, after: map<Hash, Payload>, k: Hash) {
    && Passes(cached, before, k) && CountOf(after, k) == NewCount(cached, before, k)
    && (k in after <==> k in before || NetChange(cached, k) != 0)
    && (k in after ==> after[k].value == if k in before || k !in cached then before[k].value else cached[k].value)
  }

  ghost predicate SameEntry(before: map<Hash, Payload>, after: map<Hash, Payload>, k: Hash) {
    (k in after <==> k in before) && (k in after ==> after[k] == before[k])
  }

  /** The backend while `done` has been written out. */
  ghost predicate Progress(cached: Cache, before: map<Hash, Payload>, after: map<Hash, Payload>, done: seq<Hash>) {
    && (forall k :: k in done ==> k in cached && Written(cached, before, after, k))
    && (forall k :: k !in done ==> SameEntry(before, after, k))
  }

  lemma {:induction false} ProgressStep(h: Hasher, cached: Cache, before: map<Hash, Payload>, after: map<Hash, Payload>, done: seq<Hash>, key: Hash)
    requires ContentAddressed(h, cached) && Progress(cached, before, after, done)
    requires key in cached && key !in done
    ensures var p := Persisted(after, key, cached[key]);
            && (p.None? && cached[key].rc != 0 ==> !Passes(cached, before, key))
            && (p.Some? && cached[key].rc != 0 ==> Progress(cached, before, after[key := p.value], done + [key]))
    ensures cached[key].rc == 0 ==> Progress(cached, before, after, done + [key])
  {
    hide ContentAddressed;
    assert SameEntry(before, after, key);
    SumWraps(CountOf(before, key), cached[key].rc);
    assert -TWO_31 <= cached[key].rc < TWO_31 by { RcIs32(h, cached, key); }
    var p := Persisted(after, key, cached[key]);
    if p.Some? && cached[key].rc != 0 {
      var next := after[key := p.value];
      assert Written(cached, before, next, key);
      forall k | k in done + [key] ensures k in cached && Written(cached, before, next, k) {
        if k != key { assert Written(cached, before, after, k); }
      }
      forall k | k !in done + [key] ensures SameEntry(before, next, k) { assert SameEntry(before, after, k); }
    }
  }

  lemma {:induction false} RcIs32(h: Hasher, cached: Cache, key: Hash)
    requires ContentAddressed(h, cached) && key in cached
    ensures -TWO_31 <= cached[key].rc < TWO_31
  {}

  lemma {:induction false} ReadKept(h: Hasher, cached: Cache, before: map<Hash, Payload>, after: map<Hash, Payload>, k: Hash)
    requires h.Injective() && ContentAddressed(h, cached) && Addressed(h, before) && k in cached
    requires Written(cached, before, after, k)
    ensures k in after ==> h.hashOf(after[k].value) == k && after[k].count < TWO_32
    ensures CachingGet(h, map[], after, k) == CachingGet(h, cached, before, k) <==> !WrapsToZero(cached, before, k)
  {
    var n, c := NewCount(cached, before, k), cached[k];
    SumWraps(CountOf(before, k), c.rc);
    SumWraps(CountOf(after, k), 0);
    assert k != h.NullKey();
    assert k in before ==> h.hashOf(before[k].value) == k;
    assert c.rc > 0 ==> h.hashOf(c.value) == k;
  }

  /** Once the whole cache has been written out, reads through an empty cache answer as reads
      through the old one did, unless an insertion wrapped a count to zero. */
  lemma {:induction false} CommitEffect(h: Hasher, cached: Cache, before: map<Hash, Payload>, after: map<Hash, Payload>, order: seq<Hash>)
    requires h.Injective() && ContentAddressed(h, cached) && Addressed(h, before)
    requires Lists(order, cached.Keys) && Progress(cached, before, after, order)
    ensures Addressed(h, after) && forall k :: Passes(cached, before, k) && CountOf(after, k) == NewCount(cached, before, k)
    ensures forall k :: CachingGet(h, map[], after, k) == CachingGet(h, cached, before, k) <==> !WrapsToZero(cached, before, k)
  {
    hide ContentAddressed, Hasher.Injective, CachingGet, Sum32;
    forall k
      ensures k in after ==> h.hashOf(after[k].value) == k && after[k].count < TWO_32
      ensures Passes(cached, before, k) && CountOf(after, k) == NewCount(cached, before, k)
      ensures CachingGet(h, map[], after, k) == CachingGet(h, cached, before, k) <==> !WrapsToZero(cached, before, k)
    {
      if k in cached {
        assert k in order;
        assert Written(cached, before, after, k);
        ReadKept(h, cached, before, after, k);
      } else {
        assert k !in order;
        assert SameEntry(before, after, k);
        UntouchedRead(h, cached, before, after, k);
      }
    }
  }

  lemma {:induction false} UntouchedRead(h: Hasher, cached: Cache, before: map<Hash, Payload>, after: map<Hash, Payload>, k: Hash)
    requires k !in cached && SameEntry(before, after, k)
    ensures CachingGet(h, map[], after, k) == CachingGet(h, cached, before, k)
  {}

  class CachingDB {
    const hasher: Hasher
    var cached: Cache
    var backend: map<Hash, Payload>

    ghost predicate Valid()
      reads this
    {
      hasher.Injective() && ContentAddressed(hasher, cached) && Addressed(hasher, backend)
    }

    constructor (hasher: Hasher)
      requires hasher.Injective()
      ensures Valid() && backend == map[] && cached == map[] && this.hasher == hasher
    {
      this.hasher, cached, backend := hasher, map[], map[];
    }

    method Get(key: Hash) returns (r: Option<Bytes>)
      requires Valid()
      ensures r == CachingGet(hasher, cached, backend, key)
      ensures r.Some? ==> hasher.hashOf(r.value) == key
    {
      r := CachingGet(hasher, cached, backend, key);
    }

    method Insert(value: Bytes) returns (key: Hash)
      requires Valid()
      modifies this`cached
      ensures Valid() && key == hasher.hashOf(value) && cached == Emplaced(hasher, old(cached), key, value)
      ensures forall k :: NetChange(cached, k) ==
                            if k == key && value != hasher.nullData then AsI32(NetChange(old(cached), k) + 1) else NetChange(old(cached), k)
    {
      key := hasher.hashOf(value);
      forall k { CountsMove(hasher, cached, value, key, k); }
      CacheStaysAddressed(hasher, cached, value, key);
      cached := Emplaced(hasher, cached, key, value);
    }

    method Remove(key: Hash)
      requires Valid()
      modifies this`cached
      ensures Valid() <==> !Underflows(hasher, old(cached), key)
      ensures cached == Removed(hasher, old(cached), key)
      ensures forall k :: NetChange(cached, k) ==
                            if k == key && key != hasher.NullKey() then AsI32(NetChange(old(cached), k) - 1) else NetChange(old(cached), k)
    {
      forall k { CountsMove(hasher, cached, [], key, k); }
      CacheStaysAddressed(hasher, cached, [], key);
      cached := Removed(hasher, cached, key);
    }

    /** Writes the cached changes out, in any order.  It gets through exactly when no sum is
        negative; then every count is that sum, and a read changes exactly where an insertion
        wrapped a count to zero.  Otherwise it panics part way. */
    method Commit(order: seq<Hash>) returns (ok: bool)
      requires Valid() && Lists(order, cached.Keys)
      modifies this
      ensures ok <==> forall k :: k in old(cached) ==> Passes(old(cached), old(backend), k)
      ensures ok ==> Valid() && cached == map[]
      ensures ok ==> forall k :: CountOf(backend, k) == NewCount(old(cached), old(backend), k)
      ensures ok ==> forall k :: CachingGet(hasher, cached, backend, k) == CachingGet(hasher, old(cached), old(backend), k) <==>
                                   !WrapsToZero(old(cached), old(backend), k)
    {
      hide Addressed, CachingGet, Progress, Persisted, CountOf, NetChange, ContentAddressed, Hasher.Injective, Passes, WrapsToZero, NewCount;
      var i := 0;
      assert Progress(cached, backend, backend, []) by { NoProgress(cached, backend); }
      while i < |order|
        invariant 0 <= i <= |order| && cached == old(cached)
        invariant Progress(cached, old(backend), backend, order[..i])
      {
        var key := order[i];
        assert order[..i + 1] == order[..i] + [key];
        assert key in cached && key !in order[..i];
        ProgressStep(hasher, cached, old(backend), backend, order[..i], key);
        if cached[key].rc != 0 {
          var p := Persisted(backend, key, cached[key]);
          if p.None? { return false; }
          backend := backend[key := p.value];
        }
        i := i + 1;
      }
      assert order[..i] == order;
      CommitEffect(hasher, cached, old(backend), backend, order);
      ok, cached := true, map[];
      assert ContentAddressed(hasher, cached) by { EmptyAddressed(hasher); }
    }
  }

  lemma {:induction false} NoProgress(cached: Cache, backend: map<Hash, Payload>)
    ensures Progress(cached, backend, backend, [])
  {}
}
