/**
  The chain object of a shard: building a block, checking one, executing one and committing one.
  All of it works on a state database from which no account has been deleted.
 */
module Blockchain {
  import opened Encoding
  import opened Rlp
  import opened Uints
  import opened Journal
  import opened TrieObject
  import opened StateDB
  import opened Chunks
  import opened Execution
  import opened Settlement
  import opened Blocks
  import opened Bitmap
  import NodeCache
  import C = Committer
  import N = Nodes
  import T = Trees

  // ----- the state under a block

  ghost predicate Plain(db: StateDB)
    reads db, db.trie
  {
    db.Valid() && db.Missed() == {} && db.Undeleted() && db.Now().doomed == {}
  }

  ghost function Accts(db: StateDB): Accounts
    requires Plain(db)
    reads db, db.trie
  {
    db.Now().accounts
  }

  lemma PlainBounded(db: StateDB)
    requires Plain(db)
    ensures Bounded(Accts(db))
  {
    KeptFacts(db.Value(), db.stored, db.hist, RIPEMD);
  }

  lemma NoneGone(c: Cache, stored: Accounts, hist: seq<Ledger>)
    requires Kept(c, stored, hist) && |hist| == |c.entries| + 1 && hist[|c.entries|].doomed == {}
    ensures FinalLedger(c, hist[|c.entries|], false) == hist[|c.entries|]
    ensures (forall a :: a in c.objects ==> !c.objects[a].deleted) ==> Finalised(c, false).objects == c.objects
  {
    var l := hist[|c.entries|];
    forall a | a in l.accounts
      ensures a !in Gone(c, l, false)
    {
      KeptFacts(c, stored, hist, a);
    }
    assert Gone(c, l, false) == {};
    if forall a :: a in c.objects ==> !c.objects[a].deleted {
      forall a | a in c.objects
        ensures !Goes(c.objects[a], false)
      {
        KeptFacts(c, stored, hist, a);
      }
    }
    assert l.accounts - {} == l.accounts;
  }

  /** Writes the accounts to the trie; they stay as they are. */
  method CommitPlain(db: StateDB) returns (root: Blob)
    requires Plain(db)
    modifies db`objects, db`pending, db`entries, db`dirties, db`hist, db`stored, db.trie
    ensures Plain(db) && Accts(db) == old(Accts(db))
    ensures Keeps(db.trie.tree, Accts(db)) && root == T.RootHash(db.trie.tree)
    ensures C.Extends(old(db.trie.db), db.trie.db) && (db.trie.tree.Nil? || root in db.trie.db)
  {
    NoneGone(db.Value(), db.stored, db.hist);
    root := db.Commit(false);
  }

  method Credit(db: StateDB, a: Address, v: nat)
    requires Plain(db) && v < TWO_64
    modifies db`objects, db`entries, db`dirties, db`hist, db.trie`root
    ensures Plain(db) && Accts(db) == Added(old(Accts(db)), a, v)
  {
    db.AddBalance(a, v);
  }

  method Debit(db: StateDB, a: Address, v: nat)
    requires Plain(db) && v < TWO_64
    modifies db`objects, db`entries, db`dirties, db`hist, db.trie`root
    ensures Plain(db) && Accts(db) == Subtracted(old(Accts(db)), a, v)
  {
    db.SubBalance(a, v);
  }

  method Grant(db: StateDB, accounts: seq<Address>)
    requires Plain(db)
    modifies db`objects, db`entries, db`dirties, db`hist, db.trie`root
    ensures Plain(db) && Accts(db) == Granted(old(Accts(db)), accounts)
  {
    ghost var m := Accts(db);
    for i := 0 to |accounts|
      invariant Plain(db) && Accts(db) == Granted(m, accounts[..i])
    {
      assert accounts[..i + 1][..i] == accounts[..i];
      Credit(db, accounts[i], GRANT);
    }
    assert accounts[..|accounts|] == accounts;
  }

  method ApplyCredits(db: StateDB, shard: nat, txs: seq<Tx>)
    requires Plain(db) && TxsOk(txs)
    modifies db`objects, db`entries, db`dirties, db`hist, db.trie`root
    ensures Plain(db) && Accts(db) == Credits(old(Accts(db)), shard, txs)
  {
    ghost var m := Accts(db);
    for i := 0 to |txs|
      invariant Plain(db) && Accts(db) == Credits(m, shard, txs[..i])
    {
      assert txs[..i + 1][..i] == txs[..i];
      if txs[i].fromShard != shard && txs[i].toShard == shard {
        Credit(db, txs[i].toAddr, txs[i].value);
      }
    }
    assert txs[..|txs|] == txs;
  }

  /** One transaction of the block; paid says whether it took value out of the shard. */
  method ApplyTransfer(db: StateDB, shard: nat, tx: Tx) returns (paid: bool)
    requires Plain(db) && TxOk(tx)
    modifies db`objects, db`entries, db`dirties, db`hist, db.trie`root
    ensures Plain(db) && Accts(db) == Transfer(old(Accts(db)), shard, tx)
    ensures paid <==> Funded(old(Accts(db)), shard, tx) && tx.toShard != shard
  {
    paid := false;
    if tx.fromShard == shard && tx.toShard == shard {
      var balance := db.GetBalance(tx.fromAddr);
      if balance < tx.value {
        return;
      }
      Debit(db, tx.fromAddr, tx.value);
      Credit(db, tx.toAddr, tx.value);
    }
    if tx.fromShard == shard && tx.toShard != shard {
      var balance := db.GetBalance(tx.fromAddr);
      if balance < tx.value {
        return;
      }
      Debit(db, tx.fromAddr, tx.value);
      paid := true;
    }
  }

  method ApplyTransfers(db: StateDB, shard: nat, txs: seq<Tx>)
    requires Plain(db) && TxsOk(txs)
    modifies db`objects, db`entries, db`dirties, db`hist, db.trie`root
    ensures Plain(db) && Accts(db) == Transfers(old(Accts(db)), shard, txs)
  {
    ghost var m := Accts(db);
    for i := 0 to |txs|
      invariant Plain(db) && Accts(db) == Transfers(m, shard, txs[..i])
    {
      assert txs[..i + 1][..i] == txs[..i];
      var paid := ApplyTransfer(db, shard, txs[i]);
    }
    assert txs[..|txs|] == txs;
  }

  method ApplyInbound(db: StateDB, shard: nat, chunks: seq<Chunk>)
    requires Plain(db) && forall i :: 0 <= i < |chunks| ==> TxsOk(chunks[i].txs)
    modifies db`objects, db`entries, db`dirties, db`hist, db.trie`root
    ensures Plain(db) && Accts(db) == Inbound(old(Accts(db)), shard, chunks)
  {
    ghost var m := Accts(db);
    for i := 0 to |chunks|
      invariant Plain(db) && Accts(db) == Inbound(m, shard, chunks[..i])
    {
      assert chunks[..i + 1][..i] == chunks[..i];
      ApplyCredits(db, shard, chunks[i].txs);
    }
    assert chunks[..|chunks|] == chunks;
  }

  /** The leader also marks the shards it pays to. */
  method TransferAndMark(db: StateDB, shard: nat, txs: seq<Tx>, n: nat) returns (dst: array<bv8>)
    requires Plain(db) && TxsOk(txs) && InRange(txs, n)
    modifies db`objects, db`entries, db`dirties, db`hist, db.trie`root
    ensures Plain(db) && Accts(db) == Transfers(old(Accts(db)), shard, txs)
    ensures fresh(dst) && KeySet(dst[..]) == Targets(old(Accts(db)), shard, txs)
  {
    ghost var m := Accts(db);
    dst := NewBitmap(n);
    for i := 0 to |txs|
      invariant Plain(db) && Accts(db) == Transfers(m, shard, txs[..i])
      invariant fresh(dst) && n <= 8 * dst.Length && KeySet(dst[..]) == Targets(m, shard, txs[..i])
    {
      TargetsStep(m, shard, txs, i);
      TransferThenMark(db, shard, txs[i], dst, n);
    }
    assert txs[..|txs|] == txs;
  }

  lemma TargetsStep(m: Accounts, shard: nat, txs: seq<Tx>, i: nat)
    requires TxsOk(txs) && i < |txs|
    ensures Transfers(m, shard, txs[..i + 1]) == Transfer(Transfers(m, shard, txs[..i]), shard, txs[i])
    ensures Targets(m, shard, txs[..i + 1]) ==
        Targets(m, shard, txs[..i]) + Target(Transfers(m, shard, txs[..i]), shard, txs[i])
  {
    assert txs[..i + 1][..i] == txs[..i];
  }

  method TransferThenMark(db: StateDB, shard: nat, tx: Tx, dst: array<bv8>, n: nat)
    requires Plain(db) && TxOk(tx) && FIRST_SHARD <= tx.toShard < FIRST_SHARD + n <= FIRST_SHARD + 8 * dst.Length
    modifies db`objects, db`entries, db`dirties, db`hist, db.trie`root, dst
    ensures Plain(db) && Accts(db) == Transfer(old(Accts(db)), shard, tx)
    ensures KeySet(dst[..]) == old(KeySet(dst[..])) + Target(old(Accts(db)), shard, tx)
  {
    var paid := ApplyTransfer(db, shard, tx);
    if paid {
      SetKey(dst, tx.toShard - FIRST_SHARD);
    }
  }

  /** A root compared with the one computed for the accounts m. */
  lemma RootCompare(root: Blob, t: T.Tree, m: Accounts)
    requires Keeps(t, m)
    ensures root == T.RootHash(t) <==> IsStateRoot(root, m)
  {
    assert IsStateRoot(T.RootHash(t), m);
    if IsStateRoot(root, m) {
      StateRootsAgree(root, m, T.RootHash(t), m);
    }
  }

  class Blockchain {
    const config: Config
    var stateDB: StateDB
    var latest: Option<Block>
    var blockDB: map<nat, Block>
    var outboundDB: map<Blob, seq<Chunk>>
    var headers: Headers

    ghost predicate Valid()
      reads this, stateDB, stateDB.trie
    {
      ConfigOk(config) && Plain(stateDB)
    }

    ghost function Accounts(): Accounts
      requires Valid()
      reads this, stateDB, stateDB.trie
    {
      Accts(stateDB)
    }

    /** Balances fit into 64 bits. */
    lemma StateBounded()
      requires Valid()
      ensures Bounded(Accounts())
    {
      PlainBounded(stateDB);
    }

    constructor (c: Config, db: StateDB)
      requires ConfigOk(c) && Plain(db)
      ensures Valid() && config == c && stateDB == db && latest == None
    {
      config, stateDB, latest, blockDB, outboundDB, headers := c, db, None, map[], map[], map[];
    }

    /** Reopens the state at a root, if that is known: with the accounts m, if the root stands for them. */
    method RollBack(root: Blob, ghost t: T.Tree, ghost m: Journal.Accounts) returns (r: N.Outcome<()>)
      requires Valid()
      modifies this`stateDB
      ensures r == Opening(old(stateDB.trie.db), root) && (r.Missing? <==> !HasRoot(old(stateDB.trie.db), root))
      ensures HasRoot(old(stateDB.trie.db), root) && Names(root, t) ==> r.Done?
      ensures r.Done? ==> fresh(stateDB) && fresh(stateDB.trie) && stateDB.trie.db == old(stateDB.trie.db)
      ensures r.Done? && StandsFor(root, t, m) ==> Valid() && Accounts() == m
      ensures !r.Done? ==> Valid() && stateDB == old(stateDB)
    {
      var tr;
      r, tr := OpenTrie(stateDB.trie.db, root, t);
      if r.Done? {
        stateDB := new StateDB(tr, m);
      }
    }

    method CheckChunk(c: Chunk) returns (v: Verdict)
      requires TxsOk(c.txs)
      ensures v == ChunkVerdict(headers, c)
    {
      if |c.txs| == 0 {
        return Rejected;
      }
      var from := c.txs[0].fromShard;
      if from !in headers {
        return Crashed;
      }
      if c.blockHash !in headers[from] {
        return Waiting;
      }
      var ok := CheckInboundChunk(headers[from][c.blockHash].txRoot, c);
      v := if ok then Accepted else Rejected;
    }

    method CheckThenCredit(c: Chunk) returns (v: Verdict)
      requires Valid() && TxsOk(c.txs)
      modifies stateDB`objects, stateDB`entries, stateDB`dirties, stateDB`hist, stateDB.trie`root
      ensures Valid() && v == ChunkVerdict(headers, c)
      ensures Accounts() == if v.Accepted? then Credits(old(Accounts()), config.shardId, c.txs) else old(Accounts())
    {
      v := CheckChunk(c);
      if v.Accepted? {
        ApplyCredits(stateDB, config.shardId, c.txs);
      }
    }

    /** A proof that does not fit is only logged. */
    method ExecuteChunk(c: Chunk) returns (ok: bool)
      requires Valid() && TxsOk(c.txs)
      modifies stateDB`objects, stateDB`entries, stateDB`dirties, stateDB`hist, stateDB.trie`root
      ensures Valid() && (ok <==> Reachable(headers, c))
      ensures Accounts() == if ok then Credits(old(Accounts()), config.shardId, c.txs) else old(Accounts())
    {
      var v := CheckChunk(c);
      ok := |c.txs| > 0 && !v.Crashed? && !v.Waiting?;
      if ok {
        ApplyCredits(stateDB, config.shardId, c.txs);
      }
    }

    /** Credits chunk by chunk, up to the first one that is not accepted. */
    method CheckInbound(chunks: seq<Chunk>) returns (v: Verdict)
      requires Valid() && forall i :: 0 <= i < |chunks| ==> TxsOk(chunks[i].txs)
      modifies stateDB`objects, stateDB`entries, stateDB`dirties, stateDB`hist, stateDB.trie`root
      ensures Valid() && v == InboundVerdict(headers, chunks)
      ensures v.Accepted? ==> Accounts() == Inbound(old(Accounts()), config.shardId, chunks)
    {
      ghost var m := Accounts();
      for i := 0 to |chunks|
        invariant Valid() && Accounts() == Inbound(m, config.shardId, chunks[..i])
        invariant InboundVerdict(headers, chunks[..i]).Accepted?
      {
        InboundStep(headers, m, config.shardId, chunks, i);
        v := CheckThenCredit(chunks[i]);
        if !v.Accepted? {
          VerdictStays(headers, chunks, i + 1);
          return;
        }
      }
      assert chunks[..|chunks|] == chunks;
      v := Accepted;
    }

    /** Leaves the accounts as they were whenever it comes to a verdict. */
    method CheckBlock(b: Block) returns (v: Verdict)
      requires Valid() && BlockOk(b)
      modifies this`stateDB, stateDB, stateDB.trie
      ensures Valid() && v == Check(config, old(Accounts()), latest, headers, b)
      ensures v.Accepted? || v.Rejected? ==> Accounts() == old(Accounts()) && fresh(stateDB) && fresh(stateDB.trie)
      ensures v.Accepted? ==> HasRoot(stateDB.trie.db, b.header.stateRoot)
    {
      ghost var m := Accounts();
      var prev := CommitPlain(stateDB);
      ghost var t := stateDB.trie.tree;
      NilRoot(t);
      v := Judge(b);
      if v.Accepted? || v.Rejected? {
        var r := RollBack(prev, t, m);
      }
    }

    method Judge(b: Block) returns (v: Verdict)
      requires Valid() && BlockOk(b)
      modifies stateDB, stateDB.trie
      ensures Valid() && v == Check(config, old(Accounts()), latest, headers, b)
      ensures C.Extends(old(stateDB.trie.db), stateDB.trie.db)
      ensures v.Accepted? ==> HasRoot(stateDB.trie.db, b.header.stateRoot)
    {
      ghost var m := Accounts();
      if b.header.height == 0 {
        Grant(stateDB, config.accounts);
        var ok := RootMatches(b.header.stateRoot);
        return if ok then Accepted else Rejected;
      }
      if latest.None? {
        return Rejected;
      }
      if b.header.height != latest.value.header.height + 1 {
        return Rejected;
      }
      v := CheckInbound(b.inbound);
      if !v.Accepted? {
        return;
      }
      ApplyTransfers(stateDB, config.shardId, b.txs);
      var ok := RootMatches(b.header.stateRoot);
      if !ok {
        return Rejected;
      }
      v := CheckTxRoot(b);
    }

    method RootMatches(root: Blob) returns (ok: bool)
      requires Valid()
      modifies stateDB, stateDB.trie
      ensures Valid() && stateDB.trie == old(stateDB.trie) && Accounts() == old(Accounts())
      ensures ok <==> IsStateRoot(root, Accounts())
      ensures C.Extends(old(stateDB.trie.db), stateDB.trie.db) && (ok ==> HasRoot(stateDB.trie.db, root))
    {
      var r := CommitPlain(stateDB);
      RootCompare(root, stateDB.trie.tree, Accounts());
      NilRoot(stateDB.trie.tree);
      ok := r == root;
    }

    method CheckTxRoot(b: Block) returns (v: Verdict)
      requires ConfigOk(config) && TxsOk(b.txs)
      ensures v == if !InRange(b.txs, config.shardNum) then Crashed
                   else if b.header.txRoot == TxRootOf(b.txs, config.shardNum) then Accepted else Rejected
    {
      if exists i :: 0 <= i < |b.txs| && !(FIRST_SHARD <= b.txs[i].toShard < FIRST_SHARD + config.shardNum) {
        return Crashed;
      }
      var trie, chunks, root := MakeChunks(b.txs, config.shardNum);
      CutUnique(chunks, b.txs, config.shardNum);
      v := if root == b.header.txRoot then Accepted else Rejected;
    }

    // ----- building

    method Genesis(time: nat) returns (b: Block)
      requires Valid()
      modifies this`latest, stateDB, stateDB.trie
      ensures Valid() && b.header.height == 0 && b.txs == [] && b.inbound == []
      ensures b.header.shardId == config.shardId && b.header.prev == b.header.txRoot == NodeCache.ZERO
      ensures KeySet(b.header.dst) == {} && b.header.time == time
      ensures Accounts() == Granted(old(Accounts()), config.accounts) && IsStateRoot(b.header.stateRoot, Accounts())
      ensures latest == Some(b) && HasRoot(stateDB.trie.db, b.header.stateRoot) && stateDB.trie == old(stateDB.trie)
    {
      Grant(stateDB, config.accounts);
      var root := CommitPlain(stateDB);
      RootCompare(root, stateDB.trie.tree, Accounts());
      NilRoot(stateDB.trie.tree);
      var dst := NewBitmap(config.shardNum);
      b := Block(Header(config.shardId, 0, NodeCache.ZERO, root, NodeCache.ZERO, dst[..], time), [], []);
      latest := Some(b);
    }

    /** The leader's block from waiting chunks and its own transactions, and the chunks it sends out. */
    method CreateNewBlock(txs: seq<Tx>, inbound: seq<Chunk>, time: nat) returns (b: Block)
      requires Valid() && TxsOk(txs) && InRange(txs, config.shardNum)
      requires forall i :: 0 <= i < |inbound| ==> TxsOk(inbound[i].txs)
      modifies this`latest, this`outboundDB, stateDB, stateDB.trie
      ensures Valid() && BlockOk(b) && latest == Some(b)
      ensures Builds(config, old(Accounts()), old(latest), b) && Accounts() == Result(config, old(Accounts()), b)
      ensures old(latest).Some? ==> b.txs == txs && b.inbound == inbound && Outbound(b)
      ensures old(latest).Some? ==>
          && Marks(KeySet(b.header.dst), old(Accounts()), config.shardId, inbound, txs)
          && Settles(old(Accounts()), Accounts(), config.shardId, inbound, txs)
      ensures b.header.time == time
      ensures HasRoot(stateDB.trie.db, b.header.stateRoot) && stateDB.trie == old(stateDB.trie)
    {
      if latest.None? {
        b := Genesis(time);
        return;
      }
      ghost var m := Accounts();
      StateBounded();
      ExecutedSettles(m, config.shardId, inbound, txs);
      TargetsMark(m, config.shardId, inbound, txs);
      ApplyInbound(stateDB, config.shardId, inbound);
      var dst := TransferAndMark(stateDB, config.shardId, txs, config.shardNum);
      var root := CommitPlain(stateDB);
      RootCompare(root, stateDB.trie.tree, Accounts());
      NilRoot(stateDB.trie.tree);
      var head, chunks := Assemble(txs, latest.value, root, dst[..], time);
      b := Block(head, txs, inbound);
      latest := Some(b);
      outboundDB := outboundDB[HeaderHash(head) := chunks];
    }

    /** The chunks sent out are those of the block, in shard order, each with a proof that passes. */
    ghost predicate Outbound(b: Block)
      reads this
    {
      var h := HeaderHash(b.header);
      && h in outboundDB && |outboundDB[h]| == config.shardNum
      && forall k :: 0 <= k < config.shardNum ==>
          Proven(b.header.txRoot, Chunk(Raw([]), For(b.txs, FIRST_SHARD + k), []), outboundDB[h][k], h)
    }

    method Assemble(txs: seq<Tx>, prev: Block, root: Blob, dst: seq<bv8>, time: nat)
        returns (head: Header, chunks: seq<Chunk>)
      requires ConfigOk(config) && TxsOk(txs) && InRange(txs, config.shardNum)
      ensures head.shardId == config.shardId && head.height == prev.header.height + 1
          && head.prev == HeaderHash(prev.header)
      ensures head.stateRoot == root && head.dst == dst && head.time == time
      ensures head.txRoot == TxRootOf(txs, config.shardNum)
      ensures |chunks| == config.shardNum
      ensures forall k :: 0 <= k < config.shardNum ==>
          Proven(head.txRoot, Chunk(Raw([]), For(txs, FIRST_SHARD + k), []), chunks[k], HeaderHash(head))
    {
      var trie, cut, txRoot := MakeChunks(txs, config.shardNum);
      CutUnique(cut, txs, config.shardNum);
      head := Header(config.shardId, prev.header.height + 1, HeaderHash(prev.header), root, txRoot, dst, time);
      chunks := ProveChunks(trie, cut, HeaderHash(head));
    }

    // ----- committing

    /** What stops an execution: a chunk without transactions, an unknown header, an unknown shard. */
    ghost predicate Executable(b: Block)
      reads this
    {
      && InRange(b.txs, config.shardNum)
      && forall i :: 0 <= i < |b.inbound| ==> Reachable(headers, b.inbound[i])
    }

    /** What executing a block makes of the accounts, checked or not. */
    function Rerun(m: Journal.Accounts, b: Block): Journal.Accounts
      requires BlockOk(b)
    {
      Executed(if b.header.height == 0 then Granted(m, config.accounts) else m, config.shardId, b.inbound, b.txs)
    }

    /** Wrong roots and proofs are only logged. The first block's grants come before its transactions. */
    method ExecuteBlock(b: Block) returns (ok: bool)
      requires Valid() && BlockOk(b) && latest.Some?
      modifies stateDB, stateDB.trie
      ensures Valid() && (ok <==> Executable(b))
      ensures ok ==> Accounts() == Rerun(old(Accounts()), b)
      ensures ok && b.header.height > 0 ==>
                Settles(old(Accounts()), Accounts(), config.shardId, b.inbound, b.txs)
    {
      StateBounded();
      ExecutedSettles(Accounts(), config.shardId, b.inbound, b.txs);
      if b.header.height == 0 {
        Grant(stateDB, config.accounts);
        var r := CommitPlain(stateDB);
      }
      ok := ExecuteInbound(b.inbound);
      if !ok {
        return;
      }
      ApplyTransfers(stateDB, config.shardId, b.txs);
      var r := CommitPlain(stateDB);
      var v := CheckTxRoot(b);
      ok := !v.Crashed?;
    }

    method ExecuteInbound(chunks: seq<Chunk>) returns (ok: bool)
      requires Valid() && forall i :: 0 <= i < |chunks| ==> TxsOk(chunks[i].txs)
      modifies stateDB`objects, stateDB`entries, stateDB`dirties, stateDB`hist, stateDB.trie`root
      ensures Valid() && (ok <==> forall i :: 0 <= i < |chunks| ==> Reachable(headers, chunks[i]))
      ensures ok ==> Accounts() == Inbound(old(Accounts()), config.shardId, chunks)
    {
      ghost var m := Accounts();
      for i := 0 to |chunks|
        invariant Valid() && Accounts() == Inbound(m, config.shardId, chunks[..i])
        invariant forall k :: 0 <= k < i ==> Reachable(headers, chunks[k])
      {
        InboundStep(headers, m, config.shardId, chunks, i);
        ok := ExecuteChunk(chunks[i]);
        if !ok {
          return;
        }
      }
      assert chunks[..|chunks|] == chunks;
      ok := true;
    }

    /**
      Takes over the state of a block: by its root where that is known, as after a check, else by
      executing it. With a root that stands for m, m is the state then. Without success it panics.
     */
    method Commit(b: Block, ghost t: T.Tree, ghost m: Journal.Accounts) returns (ok: bool)
      requires Valid() && BlockOk(b)
      modifies this`stateDB, this`latest, this`blockDB, stateDB, stateDB.trie
      ensures latest == Some(b) && blockDB == old(blockDB)[b.header.height := b]
      ensures var r := Opening(old(stateDB.trie.db), b.header.stateRoot);
              && (ok <==> r.Done? || (r.Missing? && Executable(b)))
              && (r.Done? && StandsFor(b.header.stateRoot, t, m) ==> Valid() && Accounts() == m)
              && (r.Missing? ==> Valid() && (ok ==> Accounts() == Rerun(old(Accounts()), b)))
      ensures HasRoot(old(stateDB.trie.db), b.header.stateRoot) && Names(b.header.stateRoot, t) ==> ok
      ensures Opening(old(stateDB.trie.db), b.header.stateRoot).Missing? <==>
              !HasRoot(old(stateDB.trie.db), b.header.stateRoot)
    {
      latest := Some(b);
      blockDB := blockDB[b.header.height := b];
      var r := RollBack(b.header.stateRoot, t, m);
      ok := r.Done?;
      if r.Missing? {
        ok := ExecuteBlock(b);
      }
    }
  }

  /**
    A block built by the leader is accepted by a validator in the same state, and committing it there gives
    the leader's accounts.
   */
  method BuildCheckCommit(leader: Blockchain, validator: Blockchain, txs: seq<Tx>, inbound: seq<Chunk>, time: nat)
    requires leader.Valid() && validator.Valid() && leader.config == validator.config
    requires {leader, leader.stateDB, leader.stateDB.trie} !! {validator, validator.stateDB, validator.stateDB.trie}
    requires leader.Accounts() == validator.Accounts() && leader.latest == validator.latest
    requires TxsOk(txs) && InRange(txs, leader.config.shardNum) && forall i :: 0 <= i < |inbound| ==>
        TxsOk(inbound[i].txs)
    requires InboundVerdict(validator.headers, inbound).Accepted?
    modifies leader, leader.stateDB, leader.stateDB.trie, validator, validator.stateDB, validator.stateDB.trie
    ensures leader.Valid() && validator.Valid()
    ensures leader.Accounts() == validator.Accounts() && leader.latest == validator.latest
  {
    ghost var m := leader.Accounts();
    var b := leader.CreateNewBlock(txs, inbound, time);
    BuiltIsAccepted(leader.config, m, validator.latest, validator.headers, b);
    ghost var r := leader.Accounts();
    ghost var t: T.Tree :| Keeps(t, r) && b.header.stateRoot == T.RootHash(t);
    CheckThenCommit(validator, b, t, r);
  }

  /** Committing a block that has just been accepted takes over the state that was checked. */
  method CheckThenCommit(validator: Blockchain, b: Block, ghost t: T.Tree, ghost m: Journal.Accounts)
    requires validator.Valid() && BlockOk(b) && Keeps(t, m) && b.header.stateRoot == T.RootHash(t)
    requires Check(validator.config, validator.Accounts(), validator.latest, validator.headers, b).Accepted?
    modifies validator, validator.stateDB, validator.stateDB.trie
    ensures validator.Valid() && validator.Accounts() == m && validator.latest == Some(b)
  {
    var v := validator.CheckBlock(b);
    var ok := validator.Commit(b, t, m);
  }

  lemma InboundStep(headers: Headers, m: Accounts, shard: nat, chunks: seq<Chunk>, i: nat)
    requires (forall k :: 0 <= k < |chunks| ==> TxsOk(chunks[k].txs)) && i < |chunks|
    ensures Inbound(m, shard, chunks[..i + 1]) == Credits(Inbound(m, shard, chunks[..i]), shard, chunks[i].txs)
    ensures var v := InboundVerdict(headers, chunks[..i]);
            InboundVerdict(headers, chunks[..i + 1]) == if v.Accepted? then ChunkVerdict(headers, chunks[i]) else v
  {
    assert chunks[..i + 1][..i] == chunks[..i];
  }

  lemma {:induction false} VerdictStays(headers: Headers, chunks: seq<Chunk>, i: nat)
    requires (forall k :: 0 <= k < |chunks| ==> TxsOk(chunks[k].txs)) && i <= |chunks|
    requires !InboundVerdict(headers, chunks[..i]).Accepted?
    ensures InboundVerdict(headers, chunks) == InboundVerdict(headers, chunks[..i])
    decreases |chunks|
  {
    if i == |chunks| {
      assert chunks[..i] == chunks;
    } else {
      var f := chunks[..|chunks| - 1];
      assert f[..i] == chunks[..i];
      VerdictStays(headers, f, i);
    }
  }
}
