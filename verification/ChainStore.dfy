/** Block storage: headers and blocks by hash, hashes by number and the head, all in one
    key-value database. */
module ChainStore {
  import opened Basics
  import opened StateStore
  import Executor

  type Hash = h: seq<int> | |h| == 32 witness seq(32, _ => 0)

  datatype Header = Header(
    height: nat,
    parentHash: Hash,
    slot: nat,
    vrf: seq<int>,
    txRoot: Hash,
    signRoot: Hash,
    stateRoot: Root,
    time: nat)

  datatype Block = Block(header: Header, signs: seq<int>, txs: seq<Executor.Tx>, proofs: seq<int>)

  /** The hash functions; `header` hashes a whole header. */
  datatype Hashing = Hashing(header: Header -> Hash, txs: seq<Executor.Tx> -> Hash, signs: seq<int> -> Hash) {
    ghost predicate Injective() {
      forall a, b :: header(a) == header(b) ==> a == b
    }
  }

  datatype DbKey = HeadAt | HeaderAt(hash: Hash) | BlockAt(hash: Hash) | NumberAt(num: nat)

  datatype Entry = HashEntry(hash: Hash) | HeaderEntry(header: Header) | BlockEntry(block: Block)

  type Db = map<DbKey, Entry>

  /** The low `width` bytes of a number, most significant first. */
  function BigEndian(n: nat, width: nat): (bytes: seq<int>)
    ensures |bytes| == width
  {
    if width == 0 then [] else BigEndian(n / 256, width - 1) + [n % 256]
  }

  lemma {:induction false} BigEndianInjective(a: nat, b: nat, width: nat)
    requires a < Pow256(width) && b < Pow256(width) && BigEndian(a, width) == BigEndian(b, width)
    ensures a == b
    decreases width
  {
    if width > 0 {
      var x, y := BigEndian(a, width), BigEndian(b, width);
      assert x[..width - 1] == BigEndian(a / 256, width - 1) && y[..width - 1] == BigEndian(b / 256, width - 1);
      assert x[width - 1] == a % 256 && y[width - 1] == b % 256;
      BigEndianInjective(a / 256, b / 256, width - 1);
    }
  }

  /** The bytes under which an entry is kept: a one-byte prefix and the rest of the key. */
  function KeyBytes(k: DbKey): (bytes: seq<int>) {
    match k
    case HeadAt => ['H' as int, 'H' as int, 'E' as int, 'A' as int, 'D' as int]
    case HeaderAt(h) => ['h' as int] + h
    case BlockAt(h) => ['b' as int] + h
    case NumberAt(n) => ['n' as int] + BigEndian(n, 8)
  }

  /** No two keys share their bytes, so the four families never overwrite one another. */
  lemma {:induction false} KeyLayoutInjective(a: DbKey, b: DbKey)
    requires a.NumberAt? ==> a.num < TWO_64
    requires b.NumberAt? ==> b.num < TWO_64
    requires KeyBytes(a) == KeyBytes(b)
    ensures a == b
  {
    hide BigEndian;
    assert KeyBytes(a)[0] == KeyBytes(b)[0];
    assert KeyBytes(a)[1..] == KeyBytes(b)[1..];
    match a {
      case HeadAt =>
      case HeaderAt(h) => assert KeyBytes(a)[1..] == h && KeyBytes(b)[1..] == b.hash;
      case BlockAt(h) => assert KeyBytes(a)[1..] == h && KeyBytes(b)[1..] == b.hash;
      case NumberAt(n) =>
        assert KeyBytes(a)[1..] == BigEndian(n, 8) && KeyBytes(b)[1..] == BigEndian(b.num, 8);
        EightBytes();
        BigEndianInjective(n, b.num, 8);
    }
  }

  function GetHash(db: Db, num: nat): (r: Option<Hash>) {
    if NumberAt(num) in db && db[NumberAt(num)].HashEntry? then Some(db[NumberAt(num)].hash) else None
  }

  function GetHeader(db: Db, h: Hash): (r: Option<Header>) {
    if HeaderAt(h) in db && db[HeaderAt(h)].HeaderEntry? then Some(db[HeaderAt(h)].header) else None
  }

  function GetBlock(db: Db, h: Hash): (r: Option<Block>) {
    if BlockAt(h) in db && db[BlockAt(h)].BlockEntry? then Some(db[BlockAt(h)].block) else None
  }

  function HeadHash(db: Db): (r: Option<Hash>) {
    if HeadAt in db && db[HeadAt].HashEntry? then Some(db[HeadAt].hash) else None
  }

  function HeadBlock(db: Db): (r: Option<Block>) {
    var h := HeadHash(db);
    if h.Some? then GetBlock(db, h.value) else None
  }

  function BlockByNumber(db: Db, num: nat): (r: Option<Block>) {
    var h := GetHash(db, num);
    if h.Some? then GetBlock(db, h.value) else None
  }

  function HeaderByNumber(db: Db, num: nat): (r: Option<Header>) {
    var h := GetHash(db, num);
    if h.Some? then GetHeader(db, h.value) else None
  }

  /** The database after a block has been written; the head stays where it is. */
  function Written(hs: Hashing, db: Db, block: Block): (r: Db) {
    var h := hs.header(block.header);
    db[NumberAt(block.header.height) := HashEntry(h)][HeaderAt(h) := HeaderEntry(block.header)][BlockAt(h) := BlockEntry(block)]
  }

  /** A header kept under its own hash. */
  predicate Stored(hs: Hashing, db: Db, x: Header) {
    GetHeader(db, hs.header(x)) == Some(x)
  }

  /** Each stored header's parent, if stored, is one lower. */
  ghost predicate LinksDescend(hs: Hashing, db: Db) {
    forall h :: GetHeader(db, h).Some? ==>
                  var x := GetHeader(db, h).value;
                  && hs.header(x) == h
                  && (GetHeader(db, x.parentHash).Some? ==> GetHeader(db, x.parentHash).value.height + 1 == x.height)
  }

  /** Following parent links from `x`, zero or more times, reaches `c`. */
  ghost predicate Reaches(hs: Hashing, db: Db, x: Header, c: Header)
    requires LinksDescend(hs, db) && Stored(hs, db, x)
    decreases x.height
  {
    || x == c
    || (var p := GetHeader(db, x.parentHash);
        p.Some? && Reaches(hs, db, p.value, c))
  }

  ghost predicate Common(hs: Hashing, db: Db, a: Header, b: Header, c: Header)
    requires LinksDescend(hs, db) && Stored(hs, db, a) && Stored(hs, db, b)
  {
    Reaches(hs, db, a, c) && Reaches(hs, db, b, c)
  }

  lemma {:induction false} ReachesLower(hs: Hashing, db: Db, x: Header, c: Header)
    requires LinksDescend(hs, db) && Stored(hs, db, x) && Reaches(hs, db, x, c)
    ensures c == x || c.height < x.height
    decreases x.height
  {
    if x != c { ReachesLower(hs, db, GetHeader(db, x.parentHash).value, c); }
  }

  /** Different headers of one height have exactly the common ancestors of their parents. */
  lemma {:induction false} CommonOfParents(hs: Hashing, db: Db, a: Header, b: Header, c: Header)
    requires LinksDescend(hs, db) && Stored(hs, db, a) && Stored(hs, db, b) && a != b && a.height == b.height
    ensures var p, q := GetHeader(db, a.parentHash), GetHeader(db, b.parentHash);
            Common(hs, db, a, b, c) <==> p.Some? && q.Some? && Common(hs, db, p.value, q.value, c)
  {
    if Common(hs, db, a, b, c) {
      ReachesLower(hs, db, a, c);
      ReachesLower(hs, db, b, c);
    }
  }

  class ChainDB {
    const hs: Hashing
    var db: Db

    constructor (hs: Hashing)
      ensures this.hs == hs && db == map[]
    {
      this.hs, db := hs, map[];
    }

    method WriteHeaderHash(num: nat, hash: Hash)
      modifies this
      ensures db == old(db)[NumberAt(num) := HashEntry(hash)]
    {
      db := db[NumberAt(num) := HashEntry(hash)];
    }

    method WriteHeader(h: Header)
      modifies this
      ensures db == old(db)[NumberAt(h.height) := HashEntry(hs.header(h))][HeaderAt(hs.header(h)) := HeaderEntry(h)]
    {
      WriteHeaderHash(h.height, hs.header(h));
      db := db[HeaderAt(hs.header(h)) := HeaderEntry(h)];
    }

    method WriteBlock(block: Block)
      modifies this
      ensures db == Written(hs, old(db), block)
    {
      WriteHeader(block.header);
      db := db[BlockAt(hs.header(block.header)) := BlockEntry(block)];
    }

    method WriteHeadHash(hash: Hash)
      modifies this
      ensures db == old(db)[HeadAt := HashEntry(hash)]
    {
      db := db[HeadAt := HashEntry(hash)];
    }

    /** Walks both branches back in step.  It finds an ancestor exactly when the headers have
        the same height and share one, and then the highest they share. */
    method FindAncestor(a0: Header, b0: Header) returns (r: Option<Hash>)
      requires hs.Injective() && LinksDescend(hs, db) && Stored(hs, db, a0) && Stored(hs, db, b0)
      ensures r.Some? <==> a0.height == b0.height && exists c :: Common(hs, db, a0, b0, c)
      ensures r.Some? ==> exists c :: hs.header(c) == r.value && Common(hs, db, a0, b0, c)
                                      && forall d :: Common(hs, db, a0, b0, d) ==> d == c || d.height < c.height
    {
      hide LinksDescend, Reaches;
      if a0.height != b0.height { return None; }
      var a, b := a0, b0;
      while hs.header(a) != hs.header(b)
        invariant a.height == b.height && Stored(hs, db, a) && Stored(hs, db, b)
        invariant forall c :: Common(hs, db, a0, b0, c) <==> Common(hs, db, a, b, c)
        decreases a.height
      {
        forall c { CommonOfParents(hs, db, a, b, c); }
        ParentsStored(hs, db, a);
        ParentsStored(hs, db, b);
        var p := GetHeader(db, a.parentHash);
        if p.None? { return None; }
        var q := GetHeader(db, b.parentHash);
        if q.None? { return None; }
        a, b := p.value, q.value;
      }
      OwnAncestor(hs, db, a);
      assert Common(hs, db, a, a, a);
      forall d | Common(hs, db, a, a, d) ensures d == a || d.height < a.height { ReachesLower(hs, db, a, d); }
      r := Some(hs.header(a));
    }
  }

  lemma {:induction false} ParentsStored(hs: Hashing, db: Db, x: Header)
    requires LinksDescend(hs, db) && Stored(hs, db, x)
    ensures var p := GetHeader(db, x.parentHash);
            p.Some? ==> Stored(hs, db, p.value) && p.value.height + 1 == x.height
  {}

  lemma {:induction false} OwnAncestor(hs: Hashing, db: Db, x: Header)
    requires LinksDescend(hs, db) && Stored(hs, db, x)
    ensures Reaches(hs, db, x, x)
  {}
}
