/** Importing blocks: the database refines an append-only sequence of linked blocks, each
    carrying the state root its execution yields. */
module Blockchain {
  import opened Basics
  import opened StateStore
  import opened ChainStore
  import opened Ledger
  import opened Executor
  import Validators = ValidatorList
  import Stakes = StakeAccounting

  datatype ImportError = KnownBlock | UnknownAncestor | InvalidBlockHeight | InvalidBlockTime | MismatchHash | InvalidState

  datatype Verdict = Imported | Rejected(error: ImportError) | Panicked

  /** Fees go to the default address. */
  const MINER: Address := 0

  function Apply(root: Root, block: Block): (r: Executor.Outcome) {
    ExecBlock(root.contents, block.txs, MINER)
  }

  /** `next` is a correct successor of `prev`. */
  ghost predicate Follows(hs: Hashing, prev: Header, next: Block) {
    && next.header.parentHash == hs.header(prev)
    && next.header.height == prev.height + 1
    && next.header.time > prev.time
    && next.header.signRoot == hs.signs(next.signs)
    && next.header.txRoot == hs.txs(next.txs)
    && Apply(prev.stateRoot, next) == Executed(next.header.stateRoot.contents)
  }

  /** Heights are contiguous from zero and each block follows the one before. */
  ghost predicate Linked(hs: Hashing, chain: seq<Block>) {
    && |chain| > 0 && chain[0].header.height == 0
    && (forall i :: 0 < i < |chain| ==> Follows(hs, chain[i - 1].header, chain[i]))
  }

  /** Block `i` and its header are found by hash and its hash by number. */
  ghost predicate Found(hs: Hashing, db: Db, chain: seq<Block>, i: nat)
    requires i < |chain|
  {
    var h := hs.header(chain[i].header);
    && chain[i].header.height == i
    && GetHash(db, i) == Some(h) && GetBlock(db, h) == Some(chain[i]) && GetHeader(db, h) == Some(chain[i].header)
  }

  ghost predicate InChain(hs: Hashing, chain: seq<Block>, h: Hash) {
    exists i :: 0 <= i < |chain| && hs.header(chain[i].header) == h
  }

  /** The database holds exactly the blocks of `chain`, and its head is the last of them. */
  ghost predicate Holds(hs: Hashing, db: Db, chain: seq<Block>) {
    && |chain| > 0
    && (forall i :: 0 <= i < |chain| ==> Found(hs, db, chain, i))
    && (forall n: nat :: GetHash(db, n).Some? ==> n < |chain|)
    && (forall h :: GetBlock(db, h).Some? || GetHeader(db, h).Some? ==> InChain(hs, chain, h))
    && HeadHash(db) == Some(hs.header(chain[|chain| - 1].header))
  }

  function Imports(hs: Hashing, db: Db, block: Block): (r: Db) {
    Written(hs, db, block)[HeadAt := HashEntry(hs.header(block.header))]
  }

  lemma {:induction false} HoldsAppend(hs: Hashing, db: Db, chain: seq<Block>, block: Block)
    requires hs.Injective() && Holds(hs, db, chain) && block.header.height == |chain|
    ensures Holds(hs, Imports(hs, db, block), chain + [block])
  {
    var db', chain' := Imports(hs, db, block), chain + [block];
    var h := hs.header(block.header);
    forall i | 0 <= i < |chain'| ensures Found(hs, db', chain', i) {
      if i < |chain| { assert Found(hs, db, chain, i); }
    }
    forall g | GetBlock(db', g).Some? || GetHeader(db', g).Some? ensures InChain(hs, chain', g) {
      if g == h {
        assert hs.header(chain'[|chain|].header) == g;
      } else {
        assert InChain(hs, chain, g);
        var i :| 0 <= i < |chain| && hs.header(chain[i].header) == g;
        assert chain'[i] == chain[i];
      }
    }
    forall n: nat | GetHash(db', n).Some? ensures n < |chain'| {
      if n != |chain| { assert GetHash(db, n).Some?; }
    }
  }

  lemma {:induction false} HoldsFirst(hs: Hashing, genesis: Block)
    requires genesis.header.height == 0
    ensures Holds(hs, Imports(hs, map[], genesis), [genesis])
  {
    assert Found(hs, Imports(hs, map[], genesis), [genesis], 0);
    assert hs.header([genesis][0].header) == hs.header(genesis.header);
  }

  /** Importing a new block changes no lookup of an older one. */
  lemma {:induction false} ImportKeepsLookups(hs: Hashing, db: Db, chain: seq<Block>, block: Block, n: nat, h: Hash)
    requires hs.Injective() && Holds(hs, db, chain) && block.header.height == |chain|
    ensures n < |chain| ==> BlockByNumber(Imports(hs, db, block), n) == BlockByNumber(db, n) == Some(chain[n])
    ensures n < |chain| ==> HeaderByNumber(Imports(hs, db, block), n) == HeaderByNumber(db, n) == Some(chain[n].header)
    ensures GetBlock(db, h).Some? ==> GetBlock(Imports(hs, db, block), h) == GetBlock(db, h)
    ensures GetHeader(db, h).Some? ==> GetHeader(Imports(hs, db, block), h) == GetHeader(db, h)
  {
    HoldsAppend(hs, db, chain, block);
    var chain' := chain + [block];
    if n < |chain| {
      assert Found(hs, db, chain, n);
      assert Found(hs, Imports(hs, db, block), chain', n);
      assert chain'[n] == chain[n];
    }
    if InChain(hs, chain, h) {
      var i :| 0 <= i < |chain| && hs.header(chain[i].header) == h;
      assert Found(hs, db, chain, i);
      assert Found(hs, Imports(hs, db, block), chain', i);
      assert chain'[i] == chain[i];
    }
  }

  /** What importing a block on top of `chain` answers, told from the sequence alone. */
  ghost function Judge(hs: Hashing, chain: seq<Block>, block: Block): (r: Verdict)
    requires |chain| > 0
  {
    var last, x := chain[|chain| - 1].header, block.header;
    if x.height < |chain| then Rejected(KnownBlock)
    else if x.parentHash != hs.header(last) then Rejected(UnknownAncestor)
    else if x.height != |chain| then Rejected(InvalidBlockHeight)
    else if x.time <= last.time then Rejected(InvalidBlockTime)
    else if x.signRoot != hs.signs(block.signs) || x.txRoot != hs.txs(block.txs) then Rejected(MismatchHash)
    else
      var out := Apply(last.stateRoot, block);
      if out.Failed? then Panicked
      else if x.stateRoot.contents != out.state then Rejected(InvalidState)
      else Imported
  }

  /** A block is imported exactly when it correctly succeeds the last one. */
  lemma {:induction false} ImportedIffFollows(hs: Hashing, chain: seq<Block>, block: Block)
    requires |chain| > 0 && chain[|chain| - 1].header.height == |chain| - 1
    ensures Judge(hs, chain, block).Imported? <==> Follows(hs, chain[|chain| - 1].header, block)
  {}

  class BlockChain {
    const db: ChainDB
    const archive: Archive
    ghost const owner: Address
    ghost const ownerKey: seq<int>
    ghost var chain: seq<Block>

    ghost predicate Valid()
      reads this, db, archive.store
    {
      && db.hs.Injective() && Holds(db.hs, db.db, chain) && Linked(db.hs, chain)
      && chain[0] == GenesisBlock(db.hs, owner, ownerKey) && archive.Valid() && StatesReadable()
    }

    /** Every block's state can still be opened. */
    ghost predicate StatesReadable()
      reads this, archive.store
    {
      forall i :: 0 <= i < |chain| ==> archive.Readable(chain[i].header.stateRoot) && Typed(chain[i].header.stateRoot.contents)
    }

    /** Sets up the genesis block over the initial allocation of a fresh store. */
    constructor (hs: Hashing, trie: Trie, addr: Address, pubkey: seq<int>)
      requires hs.Injective() && trie.Lawful()
      ensures Valid() && fresh(db) && fresh(archive) && fresh(archive.store) && db.hs == hs
      ensures owner == addr && ownerKey == pubkey && chain == [GenesisBlock(hs, addr, pubkey)]
    {
      db := new ChainDB(hs);
      archive := new Archive(trie);
      owner, ownerKey := addr, pubkey;
      chain := [GenesisBlock(hs, addr, pubkey)];
      new;
      var root := SetupAllocation(archive, addr, pubkey);
      var genesis := GenesisBlock(hs, addr, pubkey);
      db.WriteBlock(genesis);
      db.WriteHeadHash(hs.header(genesis.header));
      HoldsFirst(hs, genesis);
    }

    /** Executes a block on the state at `root`; `None` is a panic. */
    method ApplyTransactions(root: Root, block: Block) returns (r: Option<Root>)
      requires archive.Valid() && archive.Readable(root) && Typed(root.contents)
      modifies archive.store
      ensures archive.Valid()
      ensures r.Some? <==> Apply(root, block).Executed?
      ensures r.Some? ==> r.value.contents == Apply(root, block).state && archive.Readable(r.value) && Typed(r.value.contents)
      ensures forall q :: old(archive.Readable(q)) ==> archive.Readable(q)
    {
      var stateDb := new StateDB.FromExisting(archive, root);
      var state := new Balance(stateDb);
      var error;
      r, error := ExcTxsInBlock(block.txs, state, MINER);
    }

    /** Passes exactly the headers whose parent is in the chain, one lower and earlier. */
    method ValidateHeader(header: Header) returns (error: Option<ImportError>)
      requires Valid()
      ensures match error
              case None => exists i: nat :: ParentAt(db.hs, chain, header, i) && header.height == Inc64(i) && header.time > chain[i].header.time
              case Some(UnknownAncestor) => forall i: nat :: !ParentAt(db.hs, chain, header, i)
              case Some(InvalidBlockHeight) => exists i: nat :: ParentAt(db.hs, chain, header, i) && header.height != Inc64(i)
              case Some(InvalidBlockTime) =>
                exists i: nat :: ParentAt(db.hs, chain, header, i) && header.height == Inc64(i) && header.time <= chain[i].header.time
              case Some(_) => false
    {
      hide Linked, Hashing.Injective, Inc64;
      ghost var i := ParentFound(db.hs, db.db, chain, header);
      var pre := GetBlock(db.db, header.parentHash);
      if pre.None? { return Some(UnknownAncestor); }
      if header.height != Inc64(pre.value.header.height) { return Some(InvalidBlockHeight); }
      if header.time <= pre.value.header.time { return Some(InvalidBlockTime); }
      error := None;
    }

    method ValidateBlock(block: Block) returns (error: Option<ImportError>)
      ensures error.Some? <==> block.header.signRoot != db.hs.signs(block.signs) || block.header.txRoot != db.hs.txs(block.txs)
      ensures error.Some? ==> error.value == MismatchHash
    {
      if block.header.signRoot != db.hs.signs(block.signs) { return Some(MismatchHash); }
      if block.header.txRoot != db.hs.txs(block.txs) { return Some(MismatchHash); }
      error := None;
    }

    /** Everything about a block that can be judged without executing it. */
    method CheckBlock(block: Block) returns (error: Option<ImportError>)
      requires Valid() && block.header.height < TWO_64
      ensures error.Some? ==> Judge(db.hs, chain, block) == Rejected(error.value)
      ensures error.None? ==> WellPlaced(db.hs, chain, block)
    {
      hide Holds, Linked, Apply, Hashing.Injective;
      assert Current(chain, db.hs, db.db, block) by { CurrentFacts(chain, db.hs, db.db, block); }
      if BlockByNumber(db.db, block.header.height).Some? { return Some(KnownBlock); }
      if GetBlock(db.db, block.header.parentHash).None? { return Some(UnknownAncestor); }
      var current := HeadBlock(db.db).value;
      if block.header.parentHash != db.hs.header(current.header) { return Some(UnknownAncestor); }
      assert ParentAt(db.hs, chain, block.header, |chain| - 1);
      forall i: nat | ParentAt(db.hs, chain, block.header, i) ensures i == |chain| - 1 {
        OneParent(db.hs, db.db, chain, block.header, i, |chain| - 1);
      }
      error := ValidateHeader(block.header);
      if error.Some? { return; }
      error := ValidateBlock(block);
    }

    /** Imports a block or says why not.  An imported block extends the chain; any other
        leaves the database as it was. */
    method ImportBlock(block: Block) returns (r: Verdict)
      requires Valid() && block.header.height < TWO_64
      modifies this, db, archive.store
      ensures Valid() && r == Judge(db.hs, old(chain), block)
      ensures r.Imported? ==> chain == old(chain) + [block] && db.db == Imports(db.hs, old(db.db), block)
      ensures !r.Imported? ==> chain == old(chain) && db.db == old(db.db)
      ensures forall q :: old(archive.Readable(q)) ==> archive.Readable(q)
    {
      hide Holds, Linked, Apply, Hashing.Injective, Typed, Archive.Valid, Archive.Readable, GenesisBlock;
      var error := CheckBlock(block);
      if error.Some? { return Rejected(error.value); }
      assert Current(chain, db.hs, db.db, block) by { CurrentFacts(chain, db.hs, db.db, block); }
      var current := HeadBlock(db.db).value;
      var root := ApplyTransactions(current.header.stateRoot, block);
      if root.None? { return Panicked; }
      if block.header.stateRoot != root.value { return Rejected(InvalidState); }
      HoldsAppend(db.hs, db.db, chain, block);
      LinkedAppend(db.hs, chain, block);
      db.WriteBlock(block);
      db.WriteHeadHash(db.hs.header(block.header));
      chain := chain + [block];
      r := Imported;
    }
  }

  /** All of `Follows` but the execution. */
  ghost predicate WellPlaced(hs: Hashing, chain: seq<Block>, block: Block) {
    && |chain| > 0 && block.header.height == |chain|
    && block.header.parentHash == hs.header(chain[|chain| - 1].header)
    && block.header.time > chain[|chain| - 1].header.time
    && block.header.signRoot == hs.signs(block.signs) && block.header.txRoot == hs.txs(block.txs)
  }

  /** Block `i` of the chain is the header's parent. */
  ghost predicate ParentAt(hs: Hashing, chain: seq<Block>, header: Header, i: nat) {
    i < |chain| && hs.header(chain[i].header) == header.parentHash
  }

  lemma {:induction false} ParentFound(hs: Hashing, db: Db, chain: seq<Block>, header: Header) returns (i: nat)
    requires Holds(hs, db, chain)
    ensures var pre := GetBlock(db, header.parentHash);
            && (pre.None? ==> forall j: nat :: !ParentAt(hs, chain, header, j))
            && (pre.Some? ==> ParentAt(hs, chain, header, i) && pre.value == chain[i] && pre.value.header.height == i)
  {
    i := 0;
    forall j: nat | ParentAt(hs, chain, header, j) ensures GetBlock(db, header.parentHash).Some? { assert Found(hs, db, chain, j); }
    if GetBlock(db, header.parentHash).Some? {
      assert InChain(hs, chain, header.parentHash);
      i :| i < |chain| && hs.header(chain[i].header) == header.parentHash;
      assert Found(hs, db, chain, i);
    }
  }

  /** A header has at most one parent in the chain. */
  lemma {:induction false} OneParent(hs: Hashing, db: Db, chain: seq<Block>, header: Header, i: nat, j: nat)
    requires hs.Injective() && Holds(hs, db, chain) && ParentAt(hs, chain, header, i) && ParentAt(hs, chain, header, j)
    ensures i == j
  {
    assert Found(hs, db, chain, i) && Found(hs, db, chain, j);
  }

  /** How the database's answers to the questions of an import read off the chain. */
  ghost predicate Current(chain: seq<Block>, hs: Hashing, db: Db, block: Block) {
    && |chain| > 0
    && HeadBlock(db) == Some(chain[|chain| - 1])
    && GetBlock(db, hs.header(chain[|chain| - 1].header)) == Some(chain[|chain| - 1])
    && chain[|chain| - 1].header.height == |chain| - 1
    && (BlockByNumber(db, block.header.height).Some? <==> block.header.height < |chain|)
    && (block.header.height >= |chain| ==> Inc64(|chain| - 1) == |chain|)
  }

  lemma {:induction false} CurrentFacts(chain: seq<Block>, hs: Hashing, db: Db, block: Block)
    requires Holds(hs, db, chain) && block.header.height < TWO_64
    ensures Current(chain, hs, db, block)
  {
    assert Found(hs, db, chain, |chain| - 1);
    if block.header.height < |chain| { assert Found(hs, db, chain, block.header.height); }
  }

  lemma {:induction false} LinkedAppend(hs: Hashing, chain: seq<Block>, block: Block)
    requires Linked(hs, chain) && Follows(hs, chain[|chain| - 1].header, block)
    ensures Linked(hs, chain + [block])
  {
    var chain' := chain + [block];
    forall i | 0 < i < |chain'| ensures Follows(hs, chain'[i - 1].header, chain'[i]) {
      if i < |chain| { assert Follows(hs, chain[i - 1].header, chain[i]); }
    }
  }

  /** Along an imported chain every stored parent is one lower, unless some block hashes to
      the parent that genesis names. */
  lemma {:induction false} ChainLinksDescend(hs: Hashing, db: Db, chain: seq<Block>)
    requires Holds(hs, db, chain) && Linked(hs, chain) && !InChain(hs, chain, chain[0].header.parentHash)
    ensures LinksDescend(hs, db)
  {
    forall h | GetHeader(db, h).Some?
      ensures var x := GetHeader(db, h).value;
              && hs.header(x) == h
              && (GetHeader(db, x.parentHash).Some? ==> GetHeader(db, x.parentHash).value.height + 1 == x.height)
    {
      assert InChain(hs, chain, h);
      var i :| 0 <= i < |chain| && hs.header(chain[i].header) == h;
      assert Found(hs, db, chain, i);
      if i > 0 {
        assert Follows(hs, chain[i - 1].header, chain[i]);
        assert Found(hs, db, chain, i - 1);
      }
    }
  }

  const GENESIS_TIME: nat := 1597916633

  function GenesisBlock(hs: Hashing, addr: Address, pubkey: seq<int>): (b: Block) {
    var zero: Hash := seq(32, _ => 0);
    var root := RootOf(Stakes.Genesis(addr, pubkey));
    Block(Header(0, zero, 0, [], hs.txs([]), hs.signs([]), root, GENESIS_TIME), [], [], pubkey)
  }

  /** Funds the genesis account, commits, enters it as a validator and commits again. */
  method SetupAllocation(archive: Archive, addr: Address, pubkey: seq<int>) returns (root: Root)
    requires archive.Valid()
    modifies archive.store
    ensures archive.Valid() && root == RootOf(Stakes.Genesis(addr, pubkey)) && archive.Readable(root) && Typed(root.contents)
  {
    Stakes.GenesisSound(addr, pubkey);
    NullIsReadable(archive.trie, archive.store.cached, archive.store.backend);
    var stateDb := new StateDB.FromExisting(archive, NULL_ROOT);
    var state := new Balance(stateDb);
    state.AddTo(addr, Stakes.GENESIS_ALLOCATION);
    var order := Enumerate(stateDb.localChanges.Keys);
    stateDb.Commit(order);
    var staking := new Validators.Staking(stateDb);
    staking.Insert(Stakes.GenesisValidator(addr, pubkey));
    order := Enumerate(stateDb.localChanges.Keys);
    stateDb.Commit(order);
    root := stateDb.root;
  }

  /** All transactions of the blocks after the first, in order. */
  function History(chain: seq<Block>): (txs: seq<Tx>) {
    if |chain| <= 1 then [] else History(chain[..|chain| - 1]) + chain[|chain| - 1].txs
  }

  /** The state of the last block is the genesis state with the whole history executed as if
      it were one block. */
  lemma {:induction false} ChainIsOneExecution(hs: Hashing, chain: seq<Block>)
    requires Linked(hs, chain)
    ensures ExecBlock(chain[0].header.stateRoot.contents, History(chain), MINER)
            == Executed(chain[|chain| - 1].header.stateRoot.contents)
    decreases |chain|
  {
    if |chain| > 1 {
      var front := chain[..|chain| - 1];
      forall i | 0 < i < |front| ensures Follows(hs, front[i - 1].header, front[i]) {
        assert Follows(hs, chain[i - 1].header, chain[i]);
      }
      ChainIsOneExecution(hs, front);
      assert Follows(hs, chain[|chain| - 2].header, chain[|chain| - 1]);
      ExecConcat(chain[0].header.stateRoot.contents, History(front), chain[|chain| - 1].txs, MINER);
    }
  }

  /** From genesis on, the supply stays the allocation after every transaction exactly when
      each of them conserves funds in the state it meets; and stakes stay backed by locked
      balances exactly as long as the supply is the allocation. */
  lemma {:induction false} ChainConservesSupply(hs: Hashing, chain: seq<Block>, addr: Address, pubkey: seq<int>)
    requires Linked(hs, chain) && chain[0] == GenesisBlock(hs, addr, pubkey)
    ensures var m0, m := Stakes.Genesis(addr, pubkey), chain[|chain| - 1].header.stateRoot.contents;
            && (TotalKept(m0, History(chain), MINER, Stakes.GENESIS_ALLOCATION) <==> EachConserves(m0, History(chain), MINER))
            && (EachConserves(m0, History(chain), MINER) ==> Total(m) == Stakes.GENESIS_ALLOCATION)
            && (Total(m) == Stakes.GENESIS_ALLOCATION <==> Stakes.Sound(m, [Stakes.GenesisValidator(addr, pubkey)]))
            && SameModulo(Total(m), Stakes.GENESIS_ALLOCATION)
  {
    hide Total, EachConserves, TotalKept, Stakes.Sound;
    var m0 := Stakes.Genesis(addr, pubkey);
    ChainIsOneExecution(hs, chain);
    Stakes.GenesisSound(addr, pubkey);
    Stakes.BlockSound(m0, [Stakes.GenesisValidator(addr, pubkey)], History(chain), MINER);
    assert Typed(m0) && Total(m0) < TWO_128 by { SoundGenesis(addr, pubkey); }
    BlockFrame(m0, History(chain), MINER);
    BlockConservesFunds(m0, History(chain), MINER);
  }

  lemma {:induction false} SoundGenesis(addr: Address, pubkey: seq<int>)
    ensures Typed(Stakes.Genesis(addr, pubkey)) && Total(Stakes.Genesis(addr, pubkey)) < TWO_128
  {
    Stakes.GenesisSound(addr, pubkey);
  }

  /** The blocks on offer that were imported, in order. */
  function ImportedOf(blocks: seq<Block>, verdicts: seq<Verdict>): (r: seq<Block>)
    requires |verdicts| <= |blocks|
  {
    if |verdicts| == 0 then []
    else
      var n := |verdicts| - 1;
      ImportedOf(blocks, verdicts[..n]) + if verdicts[n].Imported? then [blocks[n]] else []
  }

  /** Each verdict is the one on its block on top of genesis and what was imported before it,
      and only the last can be a panic. */
  ghost predicate JudgedInTurn(hs: Hashing, genesis: Block, blocks: seq<Block>, verdicts: seq<Verdict>)
    requires |verdicts| <= |blocks|
  {
    && (forall i :: 0 <= i < |verdicts| ==> verdicts[i] == Judge(hs, [genesis] + ImportedOf(blocks, verdicts[..i]), blocks[i]))
    && (forall i :: 0 <= i < |verdicts| - 1 ==> !verdicts[i].Panicked?)
  }

  lemma {:induction false} JudgedNext(hs: Hashing, genesis: Block, blocks: seq<Block>, verdicts: seq<Verdict>, v: Verdict)
    requires |verdicts| < |blocks| && JudgedInTurn(hs, genesis, blocks, verdicts)
    requires v == Judge(hs, [genesis] + ImportedOf(blocks, verdicts), blocks[|verdicts|])
    requires |verdicts| > 0 ==> !verdicts[|verdicts| - 1].Panicked?
    ensures JudgedInTurn(hs, genesis, blocks, verdicts + [v])
    ensures ImportedOf(blocks, verdicts + [v]) == ImportedOf(blocks, verdicts) + if v.Imported? then [blocks[|verdicts|]] else []
  {
    hide Judge, ImportedOf;
    var vs := verdicts + [v];
    assert vs[..|verdicts|] == verdicts;
    forall i | 0 <= i < |vs| ensures vs[i] == Judge(hs, [genesis] + ImportedOf(blocks, vs[..i]), blocks[i]) {
      if i < |verdicts| { assert vs[..i] == verdicts[..i]; }
    }
    ImportedNext(blocks, verdicts, v);
  }

  lemma {:induction false} ImportedNext(blocks: seq<Block>, verdicts: seq<Verdict>, v: Verdict)
    requires |verdicts| < |blocks|
    ensures ImportedOf(blocks, verdicts + [v]) == ImportedOf(blocks, verdicts) + if v.Imported? then [blocks[|verdicts|]] else []
  {
    assert (verdicts + [v])[..|verdicts|] == verdicts;
  }

  /** A node's whole life: genesis and then any blocks, until one panics.  The chain is genesis
      and the imported blocks in order, each judged on top of those before it; it stays dense,
      linked and executed, holds signed transactions only, and the supply is the allocation as long as the imported
      transactions conserve funds. */
  method Run(hs: Hashing, trie: Trie, addr: Address, pubkey: seq<int>, blocks: seq<Block>) returns (node: BlockChain, verdicts: seq<Verdict>)
    requires hs.Injective() && trie.Lawful() && forall i :: 0 <= i < |blocks| ==> blocks[i].header.height < TWO_64
    ensures node.Valid() && node.owner == addr && node.ownerKey == pubkey && |verdicts| <= |blocks|
    ensures node.chain == [GenesisBlock(hs, addr, pubkey)] + ImportedOf(blocks, verdicts)
    ensures JudgedInTurn(hs, GenesisBlock(hs, addr, pubkey), blocks, verdicts)
    ensures |verdicts| < |blocks| ==> |verdicts| > 0 && verdicts[|verdicts| - 1].Panicked?
    ensures AllSigned(History(node.chain))
    ensures EachConserves(Stakes.Genesis(addr, pubkey), History(node.chain), MINER) ==>
              Total(node.chain[|node.chain| - 1].header.stateRoot.contents) == Stakes.GENESIS_ALLOCATION
    ensures Total(node.chain[|node.chain| - 1].header.stateRoot.contents) == Stakes.GENESIS_ALLOCATION ==>
              Stakes.Sound(node.chain[|node.chain| - 1].header.stateRoot.contents, [Stakes.GenesisValidator(addr, pubkey)])
  {
    hide Holds, Linked, History, Hashing.Injective, Trie.Lawful, EachConserves, Total, Stakes.Sound, Judge, JudgedInTurn, ImportedOf, AllSigned;
    node := new BlockChain(hs, trie, addr, pubkey);
    verdicts := ImportAll(node, blocks);
    ChainShape(hs, node.chain, 0);
    ChainConservesSupply(hs, node.chain, addr, pubkey);
  }

  /** Offers the blocks to a node in turn. */
  method ImportAll(node: BlockChain, blocks: seq<Block>) returns (verdicts: seq<Verdict>)
    requires node.Valid() && (forall i :: 0 <= i < |blocks| ==> blocks[i].header.height < TWO_64) && |node.chain| == 1
    modifies node, node.db, node.archive.store
    ensures node.Valid() && |verdicts| <= |blocks|
    ensures node.chain == old(node.chain) + ImportedOf(blocks, verdicts) && JudgedInTurn(node.db.hs, old(node.chain)[0], blocks, verdicts)
    ensures |verdicts| < |blocks| ==> |verdicts| > 0 && verdicts[|verdicts| - 1].Panicked?
  {
    hide BlockChain.Valid, ImportedOf, Judge, JudgedInTurn;
    verdicts := [];
    ghost var genesis := node.chain[0];
    NothingJudged(node.db.hs, genesis, blocks);
    var panicked := false;
    while |verdicts| < |blocks| && !panicked
      invariant |verdicts| <= |blocks| && node.Valid()
      invariant node.chain == [genesis] + ImportedOf(blocks, verdicts) && JudgedInTurn(node.db.hs, genesis, blocks, verdicts)
      invariant panicked <==> |verdicts| > 0 && verdicts[|verdicts| - 1].Panicked?
      decreases |blocks| - |verdicts|
    {
      var verdict := node.ImportBlock(blocks[|verdicts|]);
      JudgedNext(node.db.hs, genesis, blocks, verdicts, verdict);
      panicked := verdict.Panicked?;
      verdicts := verdicts + [verdict];
    }
  }

  lemma {:induction false} NothingJudged(hs: Hashing, genesis: Block, blocks: seq<Block>)
    ensures JudgedInTurn(hs, genesis, blocks, []) && ImportedOf(blocks, []) == []
  {}

  /** Along a linked chain heights count up from zero, times rise, each block names its parent
      and the roots of what it holds, and every transaction is signed. */
  lemma {:induction false} ChainShape(hs: Hashing, chain: seq<Block>, i: nat)
    requires Linked(hs, chain) && i < |chain|
    ensures chain[i].header.height == i && AllSigned(History(chain))
    ensures i > 0 ==> chain[i].header.parentHash == hs.header(chain[i - 1].header) && AllSigned(chain[i].txs)
    ensures i > 0 ==> chain[i].header.txRoot == hs.txs(chain[i].txs) && chain[i].header.signRoot == hs.signs(chain[i].signs)
    ensures forall j :: 0 <= j < i ==> chain[j].header.time < chain[i].header.time
    decreases i
  {
    hide ExecBlock, History;
    ChainIsOneExecution(hs, chain);
    ExecutedIsSigned(chain[0].header.stateRoot.contents, History(chain), MINER);
    if i > 0 {
      ChainShape(hs, chain, i - 1);
      assert Follows(hs, chain[i - 1].header, chain[i]);
      ExecutedIsSigned(chain[i - 1].header.stateRoot.contents, chain[i].txs, MINER);
    }
  }

  /** A nonce is used once: two transactions of one sender anywhere in the history differ in
      theirs, as long as the sender issued fewer than 2^64. */
  lemma {:induction false} NoTransactionTwice(hs: Hashing, chain: seq<Block>, i: nat, j: nat)
    requires Linked(hs, chain)
    requires i < j < |History(chain)| && History(chain)[i].from == History(chain)[j].from
    requires CountFrom(History(chain), History(chain)[i].from) < TWO_64
    ensures History(chain)[i].nonce != History(chain)[j].nonce
  {
    hide CountFrom, Load, ExecBlock, History;
    var txs, m := History(chain), chain[0].header.stateRoot.contents;
    var a := txs[i].from;
    ChainIsOneExecution(hs, chain);
    BlockNoncesConsecutive(m, txs, MINER, i);
    BlockNoncesConsecutive(m, txs, MINER, j);
    CountFromGrows(txs, a, i, j);
    DifferModulo(Load(m, a).nonce + CountFrom(txs[..i], a) + 1, CountFrom(txs[..j], a) - CountFrom(txs[..i], a));
  }

  lemma {:induction false} DifferModulo(n: nat, d: nat)
    requires 0 < d < TWO_64
    ensures (n + d) % TWO_64 != n % TWO_64
  {}

  lemma {:induction false} CountFromGrows(txs: seq<Tx>, a: Address, i: nat, j: nat)
    requires i < j < |txs| && txs[i].from == a
    ensures CountFrom(txs[..i], a) < CountFrom(txs[..j], a) <= CountFrom(txs, a)
    decreases |txs|
  {
    CountFromPrefix(txs, a, j);
    CountFromPrefix(txs[..j], a, i + 1);
    assert txs[..j][..i + 1] == txs[..i + 1];
    assert txs[..i + 1][..i] == txs[..i];
  }

  lemma {:induction false} CountFromPrefix(txs: seq<Tx>, a: Address, k: nat)
    requires k <= |txs|
    ensures CountFrom(txs[..k], a) <= CountFrom(txs, a)
    decreases |txs|
  {
    if k < |txs| {
      CountFromPrefix(txs[..|txs| - 1], a, k);
      assert txs[..|txs| - 1][..k] == txs[..k];
    } else {
      assert txs[..k] == txs;
    }
  }
}
