/** The key-value state of the chain: an overlay of uncommitted changes over a committed
    trie, and an archive that keeps every committed trie readable by its root. */
module StateStore {
  import opened Basics
  import opened HashBackends

  type Address = nat

  /** Storage keys; hashing keeps the three families apart. */
  datatype Key = HeadKey | ValidatorKey(address: Address) | AccountKey(address: Address)

  datatype Account = Account(balance: nat, nonce: nat, locked: nat)

  datatype LockingBalance = LockingBalance(amount: nat, height: nat)

  datatype Validator = Validator(
    address: Address,
    pubkey: seq<int>,
    balance: nat,
    effectiveBalance: nat,
    activateHeight: nat,
    exitHeight: nat,
    depositQueue: seq<LockingBalance>,
    unlockedQueue: seq<LockingBalance>)

  /** Stored values, one constructor per serialised type. */
  datatype Value =
    | HeadRef(first: Key)
    | ListEntry(pre: Option<Key>, next: Option<Key>, payload: Validator)
    | AccountData(account: Account)

  type Contents = map<Key, Value>

  /** A trie root stands for the contents it was computed from. */
  datatype Root = RootOf(contents: Contents)

  const NULL_ROOT := RootOf(map[])

  function Overlay(base: Contents, changes: map<Key, Option<Value>>): (m: Contents)
    ensures forall k :: k in m <==> if k in changes then changes[k].Some? else k in base
    ensures forall k :: k in m ==> m[k] == if k in changes then changes[k].value else base[k]
  {
    map k | k in base.Keys + changes.Keys && (if k in changes then changes[k].Some? else k in base) ::
      if k in changes then changes[k].value else base[k]
  }

  /** One change applied to a trie. */
  function Change(m: Contents, k: Key, v: Option<Value>): (r: Contents) {
    if v.Some? then m[k := v.value] else m - {k}
  }

  /** What updating a trie does to the node store: nodes that are gone are removed, then the
      new ones inserted. */
  datatype Edit = Edit(dead: seq<Hash>, inserted: seq<Bytes>)

  /** A trie as its node store sees it: the nodes that make up given contents, and the edit by
      which contents become others when the changes come in some order. */
  datatype Trie = Trie(hasher: Hasher, nodes: Contents -> set<Bytes>, edit: (Contents, Contents, seq<Key>) -> Edit) {
    /** Only old nodes are removed, each once, and every node that is new is inserted; no node
        is inserted 2^31 times. */
    ghost predicate EditOk(before: Contents, after: Contents, e: Edit) {
      && (forall k :: k in e.dead ==> exists b :: b in nodes(before) && hasher.hashOf(b) == k)
      && Distinct(e.dead)
      && (forall b :: b in nodes(after) && b !in nodes(before) ==> b in e.inserted)
      && (forall b :: multiset(e.inserted)[b] < TWO_31)
    }

    ghost predicate Lawful() {
      && hasher.Injective() && nodes(map[]) <= {hasher.nullData}
      && (forall before, after, order :: EditOk(before, after, edit(before, after, order)))
    }
  }

  /** Every one of the nodes is found under its hash. */
  predicate ReadsAll(h: Hasher, cached: Cache, backend: map<Hash, Bytes>, nodes: set<Bytes>) {
    forall b :: b in nodes ==> ArchiveGet(h, cached, backend, h.hashOf(b)) == Some(b)
  }

  /** Whatever is cached, persisted nodes are still read. */
  lemma {:induction false} PersistedIsRead(h: Hasher, cached: Cache, backend: map<Hash, Bytes>, nodes: set<Bytes>)
    requires h.Injective() && ContentAddressed(h, cached) && ReadsAll(h, map[], backend, nodes)
    ensures ReadsAll(h, cached, backend, nodes)
  {
    forall b | b in nodes ensures ArchiveGet(h, cached, backend, h.hashOf(b)) == Some(b) {
      assert ArchiveGet(h, map[], backend, h.hashOf(b)) == Some(b);
    }
  }

  /** The cache after removals only. */
  ghost predicate OnlyRemoved(cached: Cache, dead: seq<Hash>) {
    forall k :: k in cached ==> k in dead && cached[k].rc == -1
  }

  /** The cache after the first `n` insertions on top: what was not removed is present. */
  ghost predicate Grown(h: Hasher, cached: Cache, dead: seq<Hash>, inserted: seq<Bytes>) {
    && (forall k :: k in cached ==> -1 <= cached[k].rc && (k !in dead ==> cached[k].rc >= 1))
    && (forall b :: b in inserted && b != h.nullData ==> h.hashOf(b) in cached)
    && (forall b :: h.hashOf(b) in cached ==> cached[h.hashOf(b)].rc <= multiset(inserted)[b])
  }

  lemma {:induction false} GrowNext(h: Hasher, cached: Cache, dead: seq<Hash>, inserted: seq<Bytes>, b: Bytes)
    requires h.Injective() && Grown(h, cached, dead, inserted) && multiset(inserted + [b])[b] < TWO_31
    ensures Grown(h, Emplaced(h, cached, h.hashOf(b), b), dead, inserted + [b])
  {
    assert multiset(inserted + [b]) == multiset(inserted) + multiset{b};
    var k, next := h.hashOf(b), Emplaced(h, cached, h.hashOf(b), b);
    if b != h.nullData && k in cached { assert cached[k].rc + 1 < TWO_31; }
    forall c | h.hashOf(c) in next ensures next[h.hashOf(c)].rc <= multiset(inserted + [b])[c] {
      if h.hashOf(c) == k { assert c == b; }
    }
  }

  /** How often a node with hash `k` is inserted; the null node does not count. */
  function Insertions(h: Hasher, inserted: seq<Bytes>, k: Hash): (n: nat) {
    if |inserted| == 0 then 0
    else
      var b := inserted[|inserted| - 1];
      Insertions(h, inserted[..|inserted| - 1], k) + if h.hashOf(b) == k && b != h.nullData then 1 else 0
  }

  function Removals(h: Hasher, dead: seq<Hash>, k: Hash): (n: nat) {
    if k in dead && k != h.NullKey() then 1 else 0
  }

  /** Every count is the number of insertions less that of removals, in 32 bits. */
  ghost predicate Counted(h: Hasher, cached: Cache, dead: seq<Hash>, inserted: seq<Bytes>) {
    forall k :: NetChange(cached, k) == AsI32(Insertions(h, inserted, k) - Removals(h, dead, k))
  }

  lemma {:induction false} CountedRemoval(h: Hasher, cached: Cache, dead: seq<Hash>, key: Hash)
    requires Counted(h, cached, dead, []) && key !in dead
    ensures Counted(h, Removed(h, cached, key), dead + [key], [])
  {
    hide Removed, AsI32, NetChange;
    forall k ensures NetChange(Removed(h, cached, key), k) == AsI32(Insertions(h, [], k) - Removals(h, dead + [key], k)) {
      CountsMove(h, cached, [], key, k);
      AsI32Add(Insertions(h, [], k) - Removals(h, dead, k), -1);
    }
  }

  lemma {:induction false} CountedInsertion(h: Hasher, cached: Cache, dead: seq<Hash>, inserted: seq<Bytes>, b: Bytes)
    requires Counted(h, cached, dead, inserted)
    ensures Counted(h, Emplaced(h, cached, h.hashOf(b), b), dead, inserted + [b])
  {
    hide Emplaced, AsI32, NetChange;
    assert (inserted + [b])[..|inserted|] == inserted;
    forall k ensures NetChange(Emplaced(h, cached, h.hashOf(b), b), k) == AsI32(Insertions(h, inserted + [b], k) - Removals(h, dead, k)) {
      CountsMove(h, cached, b, 0, k);
      AsI32Add(Insertions(h, inserted, k) - Removals(h, dead, k), 1);
    }
  }

  lemma {:induction false} NothingCounted(h: Hasher)
    ensures Counted(h, map[], [], [])
  {}

  lemma {:induction false} PrefixMultiplicity(inserted: seq<Bytes>, i: nat)
    requires i <= |inserted|
    ensures forall b :: multiset(inserted[..i])[b] <= multiset(inserted)[b]
  {
    assert inserted == inserted[..i] + inserted[i..];
  }

  /** Once the edit is in the cache, all nodes of the new contents are read. */
  lemma {:induction false} EditedIsRead(t: Trie, cached: Cache, backend: map<Hash, Bytes>, before: Contents, after: Contents, e: Edit)
    requires t.hasher.Injective() && ContentAddressed(t.hasher, cached) && t.EditOk(before, after, e)
    requires Grown(t.hasher, cached, e.dead, e.inserted) && ReadsAll(t.hasher, map[], backend, t.nodes(before))
    ensures ReadsAll(t.hasher, cached, backend, t.nodes(after))
  {
    var h := t.hasher;
    PersistedIsRead(h, cached, backend, t.nodes(before));
    forall b | b in t.nodes(after) && b !in t.nodes(before) ensures ArchiveGet(h, cached, backend, h.hashOf(b)) == Some(b) {
      if b != h.nullData {
        assert h.hashOf(b) in cached;
        assert h.hashOf(b) !in e.dead;
      }
    }
  }

  /** The committed tries, shared by every state opened on the same backend. */
  class Archive {
    const trie: Trie
    const store: ArchiveDB

    constructor (trie: Trie)
      requires trie.Lawful()
      ensures this.trie == trie && fresh(store) && Valid()
    {
      this.trie := trie;
      store := new ArchiveDB(trie.hasher);
    }

    /** Between calls nothing is left in the cache. */
    ghost predicate Valid()
      reads store
    {
      trie.Lawful() && store.Valid() && store.hasher == trie.hasher && store.cached == map[]
    }

    /** All nodes of the trie with that root are found. */
    predicate Readable(root: Root)
      reads store
    {
      ReadsAll(trie.hasher, store.cached, store.backend, trie.nodes(root.contents))
    }

    /** Turns one trie into another in the cache and writes the cache out.  The new trie is
        readable, and every trie that was stays so: removals never reach the backend. */
    method Update(before: Contents, after: Contents, order: seq<Key>)
      requires Valid() && Readable(RootOf(before))
      modifies store
      ensures Valid() && Readable(RootOf(after))
      ensures forall r :: old(Readable(r)) ==> Readable(r)
    {
      hide Trie.Lawful, Hasher.Injective, ContentAddressed, Preimages, ArchiveGet, ReadsAll, Grown;
      var e := trie.edit(before, after, order);
      assert trie.hasher.Injective() && trie.EditOk(before, after, e) by { LawfulEdit(trie, before, after, order); }
      Apply(e);
      EditedIsRead(trie, store.cached, store.backend, before, after, e);
      forall r | old(Readable(r)) ensures Readable(r) {
        PersistedIsRead(trie.hasher, store.cached, store.backend, trie.nodes(r.contents));
      }
      ghost var cached, backend := store.cached, store.backend;
      var keys := Enumerate(store.cached.Keys);
      store.Commit(keys);
      forall r: Root { SameReads(trie.hasher, cached, backend, store.cached, store.backend, trie.nodes(r.contents)); }
    }

    /** Removals first, then insertions, all in the cache: each node ends up with the number of
        its insertions less that of its removals. */
    method Apply(e: Edit)
      requires store.Valid() && store.cached == map[] && forall b :: multiset(e.inserted)[b] < TWO_31
      requires Distinct(e.dead)
      modifies store`cached
      ensures store.Valid() && Grown(store.hasher, store.cached, e.dead, e.inserted)
      ensures Counted(store.hasher, store.cached, e.dead, e.inserted)
    {
      hide Hasher.Injective, Preimages, ContentAddressed, Counted, Grown;
      RemoveAll(e.dead);
      assert Grown(store.hasher, store.cached, e.dead, []) by { GrownFromRemoved(store.hasher, store.cached, e.dead); }
      var i := 0;
      while i < |e.inserted|
        invariant 0 <= i <= |e.inserted| && store.Valid() && Grown(store.hasher, store.cached, e.dead, e.inserted[..i])
        invariant Counted(store.hasher, store.cached, e.dead, e.inserted[..i])
      {
        assert e.inserted[..i + 1] == e.inserted[..i] + [e.inserted[i]];
        PrefixMultiplicity(e.inserted, i + 1);
        CountedInsertion(store.hasher, store.cached, e.dead, e.inserted[..i], e.inserted[i]);
        GrowNext(store.hasher, store.cached, e.dead, e.inserted[..i], e.inserted[i]);
        var _ := store.Insert(e.inserted[i]);
        i := i + 1;
      }
      assert e.inserted[..i] == e.inserted;
    }

    method RemoveAll(dead: seq<Hash>)
      requires store.Valid() && store.cached == map[] && Distinct(dead)
      modifies store`cached
      ensures store.Valid() && OnlyRemoved(store.cached, dead) && Counted(store.hasher, store.cached, dead, [])
    {
      hide Hasher.Injective, Preimages, ContentAddressed, Counted, AsI32;
      var i := 0;
      NothingCounted(store.hasher);
      while i < |dead|
        invariant 0 <= i <= |dead| && store.Valid() && OnlyRemoved(store.cached, dead[..i])
        invariant Counted(store.hasher, store.cached, dead[..i], [])
      {
        assert dead[..i + 1] == dead[..i] + [dead[i]];
        assert dead[i] !in dead[..i];
        CountedRemoval(store.hasher, store.cached, dead[..i], dead[i]);
        store.Remove(dead[i]);
        i := i + 1;
      }
      assert dead[..i] == dead;
    }
  }

  lemma {:induction false} GrownFromRemoved(h: Hasher, cached: Cache, dead: seq<Hash>)
    requires OnlyRemoved(cached, dead)
    ensures Grown(h, cached, dead, [])
  {}

  lemma {:induction false} LawfulEdit(t: Trie, before: Contents, after: Contents, order: seq<Key>)
    requires t.Lawful()
    ensures t.hasher.Injective() && t.EditOk(before, after, t.edit(before, after, order))
  {}

  lemma {:induction false} SameReads(h: Hasher, cached: Cache, backend: map<Hash, Bytes>, cached': Cache, backend': map<Hash, Bytes>, nodes: set<Bytes>)
    requires forall k :: ArchiveGet(h, cached', backend', k) == ArchiveGet(h, cached, backend, k)
    ensures ReadsAll(h, cached, backend, nodes) <==> ReadsAll(h, cached', backend', nodes)
  {}

  /** The null root is readable without being stored. */
  lemma {:induction false} NullIsReadable(t: Trie, cached: Cache, backend: map<Hash, Bytes>)
    requires t.Lawful()
    ensures ReadsAll(t.hasher, cached, backend, t.nodes(NULL_ROOT.contents))
  {}

  class StateDB {
    const db: Archive
    var root: Root
    var localChanges: map<Key, Option<Value>>

    constructor FromExisting(db: Archive, root: Root)
      ensures this.db == db && this.root == root && localChanges == map[]
      ensures db.Readable(root) ==> View() == root.contents
    {
      this.db, this.root, localChanges := db, root, map[];
      new;
      assert Overlay(root.contents, map[]) == root.contents;
    }

    ghost function View(): (m: Contents)
      reads this, db.store
    {
      Overlay(if db.Readable(root) then root.contents else map[], localChanges)
    }

    method SetStorage(key: Key, value: Value)
      modifies this`localChanges
      ensures View() == old(View())[key := value]
    {
      hide Overlay;
      OverlayChange(if db.Readable(root) then root.contents else map[], localChanges, key, Some(value));
      localChanges := localChanges[key := Some(value)];
    }

    method RemoveStorage(key: Key)
      modifies this`localChanges
      ensures View() == old(View()) - {key}
    {
      hide Overlay;
      OverlayChange(if db.Readable(root) then root.contents else map[], localChanges, key, None);
      localChanges := localChanges[key := None];
    }

    /** Last write, else the committed trie. */
    method GetStorage(key: Key) returns (r: Option<Value>)
      ensures r == if key in View() then Some(View()[key]) else None
    {
      if key in localChanges { return localChanges[key]; }
      if !db.Readable(root) { return None; }
      r := if key in root.contents then Some(root.contents[key]) else None;
    }

    /** The committed trie with the changes applied in whatever order the change table yields. */
    method ApplyChanges(order: seq<Key>) returns (trie: Contents)
      requires Lists(order, localChanges.Keys)
      ensures trie == Overlay(root.contents, localChanges)
    {
      hide Overlay;
      trie := root.contents;
      var i := 0;
      assert trie == Overlay(trie, Restrict(localChanges, order[..0])) by { NothingChanged(trie, localChanges); }
      while i < |order|
        invariant 0 <= i <= |order| && trie == Overlay(root.contents, Restrict(localChanges, order[..i]))
      {
        ChangeNext(root.contents, localChanges, order, i);
        trie := Change(trie, order[i], localChanges[order[i]]);
        i := i + 1;
      }
      AllChanged(root.contents, localChanges, order);
    }

    /** Archives the trie with the changes, which stay in the overlay. */
    method Commit(order: seq<Key>)
      requires db.Valid() && db.Readable(root) && Lists(order, localChanges.Keys)
      modifies this`root, db.store
      ensures db.Valid() && View() == old(View()) && root == RootOf(old(View())) && db.Readable(root)
      ensures forall r :: old(db.Readable(r)) ==> db.Readable(r)
    {
      hide Archive.Readable, Archive.Valid, Overlay;
      var trie := ApplyChanges(order);
      OverlayTwice(root.contents, localChanges);
      db.Update(root.contents, trie, order);
      root := RootOf(trie);
    }
  }

  lemma {:induction false} NothingChanged(base: Contents, changes: map<Key, Option<Value>>)
    ensures Overlay(base, Restrict(changes, [])) == base
  {}

  function Restrict(changes: map<Key, Option<Value>>, keys: seq<Key>): (m: map<Key, Option<Value>>) {
    map k | k in changes && k in keys :: changes[k]
  }

  lemma {:induction false} OverlayChange(base: Contents, changes: map<Key, Option<Value>>, k: Key, v: Option<Value>)
    ensures Overlay(base, changes[k := v]) == Change(Overlay(base, changes), k, v)
  {}

  lemma {:induction false} ChangeNext(base: Contents, changes: map<Key, Option<Value>>, order: seq<Key>, i: nat)
    requires Lists(order, changes.Keys) && i < |order|
    ensures Change(Overlay(base, Restrict(changes, order[..i])), order[i], changes[order[i]]) ==
              Overlay(base, Restrict(changes, order[..i + 1]))
  {
    hide Overlay, Change;
    var k := order[i];
    assert order[..i + 1] == order[..i] + [k];
    assert k in changes;
    assert Restrict(changes, order[..i + 1]) == Restrict(changes, order[..i])[k := changes[k]];
    OverlayChange(base, Restrict(changes, order[..i]), k, changes[k]);
  }

  lemma {:induction false} AllChanged(base: Contents, changes: map<Key, Option<Value>>, order: seq<Key>)
    requires Lists(order, changes.Keys)
    ensures Overlay(base, Restrict(changes, order[..|order|])) == Overlay(base, changes)
  {
    assert order[..|order|] == order;
    assert Restrict(changes, order) == changes;
  }

  /** Committed changes that stay in the overlay change nothing more. */
  lemma {:induction false} OverlayTwice(base: Contents, changes: map<Key, Option<Value>>)
    ensures Overlay(Overlay(base, changes), changes) == Overlay(base, changes)
  {}

  /** Committing twice gives the same root, and a state reopened at the committed root reads
      the same contents. */
  method CommitTwiceAndReopen(s: StateDB, order: seq<Key>, again: seq<Key>) returns (reopened: StateDB)
    requires s.db.Valid() && s.db.Readable(s.root) && Lists(order, s.localChanges.Keys) && Lists(again, s.localChanges.Keys)
    modifies s, s.db.store
    ensures s.root == RootOf(old(s.View())) && s.View() == old(s.View())
    ensures reopened.View() == old(s.View()) && reopened.db == s.db
    ensures forall r :: old(s.db.Readable(r)) ==> s.db.Readable(r)
  {
    s.Commit(order);
    s.Commit(again);
    reopened := new StateDB.FromExisting(s.db, s.root);
  }
}
