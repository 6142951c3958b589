/**
  Transactions cut into one chunk per destination shard. The hashes of a chunk's transactions are
  the leaves of one trie, the roots of the chunks those of another, and a chunk travels with a
  proof that leads from its root to the transaction root in the header of its block.
 */
module Chunks {
  import opened Encoding
  import opened Rlp
  import opened Uints
  import opened Seal
  import opened Nodes
  import opened TrieObject
  import opened Proofs
  import NodeCache
  import R = TrieRuns
  import T = Trees
  import J = Journal

  datatype Tx = Tx(fromShard: nat, toShard: nat, fromAddr: J.Address, toAddr: J.Address, value: nat, hash: Blob)

  datatype Chunk = Chunk(blockHash: Blob, txs: seq<Tx>, proof: seq<Item>)

  const FIRST_SHARD := 1001

  predicate TxOk(tx: Tx) {
    Len(tx.hash) == HASH_LEN && tx.value < TWO_64 && tx.toShard < TWO_64
  }

  predicate TxsOk(txs: seq<Tx>) {
    |txs| < TWO_64 - FIRST_SHARD && forall i :: 0 <= i < |txs| ==> TxOk(txs[i])
  }

  // ----- the hash of a transaction

  /** A number as a field of an encoded record. */
  function Field(n: nat): Item {
    Str(Raw(BigEndian(n)))
  }

  lemma FieldInjective(m: nat, n: nat)
    requires Field(m) == Field(n)
    ensures m == n
  {
    NumberOfBigEndian(m);
    NumberOfBigEndian(n);
  }

  /** The hash as it is computed, over a copy whose data and hash fields are left empty. */
  function TxDigest(tx: Tx): Blob {
    Keccak(List([Field(tx.fromShard), Str(Raw(tx.fromAddr)), Field(tx.toShard), Str(Raw(tx.toAddr)),
                 Field(tx.value), EMPTY_ITEM, Str(NodeCache.ZERO)]))
  }

  /** A digest determines the transaction but for the hash field. */
  lemma TxDigestCommits(a: Tx, b: Tx)
    ensures TxDigest(a) == TxDigest(b) <==> a.(hash := b.hash) == b
  {
    if TxDigest(a) == TxDigest(b) {
      var x, y := TxDigest(a).preimage.items, TxDigest(b).preimage.items;
      assert x[0] == Field(a.fromShard) && x[2] == Field(a.toShard) && x[4] == Field(a.value);
      assert y[0] == Field(b.fromShard) && y[2] == Field(b.toShard) && y[4] == Field(b.value);
      FieldInjective(a.fromShard, b.fromShard);
      FieldInjective(a.toShard, b.toShard);
      FieldInjective(a.value, b.value);
      assert x[1] == Str(Raw(a.fromAddr)) && x[3] == Str(Raw(a.toAddr));
      assert y[1] == Str(Raw(b.fromAddr)) && y[3] == Str(Raw(b.toAddr));
    }
  }

  /** Every hash field is the digest of its transaction. Nothing in the program checks it. */
  ghost predicate Recomputed(txs: seq<Tx>) {
    forall i :: 0 <= i < |txs| ==> txs[i].hash == TxDigest(txs[i])
  }

  /** Lists with the same hash fields, one of them recomputed, are equal exactly if the other is too. */
  lemma SameHashes(a: seq<Tx>, b: seq<Tx>)
    requires Hashes(a) == Hashes(b) && Recomputed(b)
    ensures a == b <==> Recomputed(a)
  {
    assert |a| == |Hashes(a)| == |Hashes(b)| == |b|;
    if Recomputed(a) {
      forall i | 0 <= i < |a|
        ensures a[i] == b[i]
      {
        assert a[i].hash == Hashes(a)[i] == Hashes(b)[i] == b[i].hash;
        TxDigestCommits(a[i], b[i]);
      }
    }
  }

  /** The generator of cross-shard transactions sets the destination after the hash was computed. */
  lemma RedirectedHash(tx: Tx, to: nat)
    requires tx.hash == TxDigest(tx)
    ensures var r := tx.(toShard := to); r.hash == TxDigest(r) <==> to == tx.toShard
  {
    TxDigestCommits(tx, tx.(toShard := to));
  }

  // ----- lists as tries

  /** Consecutive numbers from base on as keys. */
  function IndexOps(base: nat, vals: seq<Blob>): seq<R.Op>
    requires base + |vals| <= TWO_64
  {
    seq(|vals|, i requires 0 <= i < |vals| => R.Update(RlpUint(base + i), vals[i]))
  }

  ghost predicate NonEmpty(vals: seq<Blob>) {
    forall i :: 0 <= i < |vals| ==> Len(vals[i]) > 0
  }

  lemma IndexOpsStep(base: nat, vals: seq<Blob>, i: nat)
    requires base + |vals| <= TWO_64 && i < |vals|
    ensures IndexOps(base, vals)[..i + 1] == IndexOps(base, vals)[..i] + [R.Update(RlpUint(base + i), vals[i])]
    ensures IndexOps(base, vals)[..i] == IndexOps(base, vals[..i])
  {
  }

  /** A map holds a list under consecutive numbers, and no other number. */
  ghost predicate ListAt(m: R.Contents, base: nat, vals: seq<Blob>, n: nat)
    requires n < TWO_64
  {
    && (RlpUint(n) in m <==> base <= n < base + |vals|)
    && (base <= n < base + |vals| ==> m[RlpUint(n)] == vals[n - base])
  }

  lemma ListSnoc(m: R.Contents, base: nat, vals: seq<Blob>, v: Blob, n: nat)
    requires n < TWO_64 && base + |vals| < TWO_64 && ListAt(m, base, vals, n)
    ensures ListAt(m[RlpUint(base + |vals|) := v], base, vals + [v], n)
  {
    if RlpUint(n) == RlpUint(base + |vals|) {
      UintInjective(n, base + |vals|);
    }
  }

  /** What the trie of a list holds under a number. */
  lemma {:induction false} IndexMap(base: nat, vals: seq<Blob>, n: nat)
    requires base + |vals| <= TWO_64 && NonEmpty(vals) && n < TWO_64
    ensures ListAt(R.RunMap(IndexOps(base, vals)), base, vals, n)
  {
    if |vals| > 0 {
      var k := |vals| - 1;
      IndexMap(base, vals[..k], n);
      IndexOpsStep(base, vals, k);
      var ops := IndexOps(base, vals);
      assert ops[..k + 1] == ops && vals == vals[..k] + [vals[k]];
      ListSnoc(R.RunMap(ops[..k]), base, vals[..k], vals[k], n);
    }
  }

  lemma IndexGet(base: nat, vals: seq<Blob>, n: nat)
    requires base + |vals| <= TWO_64 && NonEmpty(vals) && n < TWO_64
    ensures T.Get(R.Run(IndexOps(base, vals)), KeyToBinary(RlpUint(n))) ==
            if base <= n < base + |vals| then Some(vals[n - base]) else None
  {
    IndexMap(base, vals, n);
    R.RunGet(IndexOps(base, vals), RlpUint(n));
  }

  lemma ListsEqual(m: R.Contents, base: nat, a: seq<Blob>, b: seq<Blob>)
    requires base + |a| < TWO_64 && base + |b| < TWO_64
    requires forall n :: 0 <= n < TWO_64 ==> ListAt(m, base, a, n) && ListAt(m, base, b, n)
    ensures a == b
  {
    assert ListAt(m, base, a, base + |b|) && ListAt(m, base, b, base + |b|);
    assert ListAt(m, base, a, base + |a|) && ListAt(m, base, b, base + |a|);
    forall i | 0 <= i < |a|
      ensures a[i] == b[i]
    {
      assert ListAt(m, base, a, base + i) && ListAt(m, base, b, base + i);
    }
  }

  lemma IndexRootCommits(base: nat, a: seq<Blob>, b: seq<Blob>)
    requires base + |a| < TWO_64 && base + |b| < TWO_64 && NonEmpty(a) && NonEmpty(b)
    ensures T.RootHash(R.Run(IndexOps(base, a))) == T.RootHash(R.Run(IndexOps(base, b))) <==> a == b
  {
    var x, y := IndexOps(base, a), IndexOps(base, b);
    R.RunsAgree(x, y);
    if R.RunMap(x) == R.RunMap(y) {
      forall n | 0 <= n < TWO_64
        ensures ListAt(R.RunMap(x), base, a, n) && ListAt(R.RunMap(x), base, b, n)
      {
        IndexMap(base, a, n);
        IndexMap(base, b, n);
      }
      ListsEqual(R.RunMap(x), base, a, b);
    }
  }

  /** Quantified so that only proofs that mention Opens see the trie behind the root. */
  ghost predicate IsListRoot(root: Blob, base: nat, vals: seq<Blob>)
    requires base + |vals| <= TWO_64
  {
    forall key :: Opens(key) ==> root == T.RootHash(R.Run(IndexOps(base, vals)))
  }

  /** The root of the trie that holds a list under consecutive numbers. */
  ghost function ListRoot(base: nat, vals: seq<Blob>): (root: Blob)
    requires base + |vals| <= TWO_64
    ensures root.Keccak?
  {
    assert IsListRoot(T.RootHash(R.Run(IndexOps(base, vals))), base, vals);
    var root :| IsListRoot(root, base, vals);
    assert Opens(0);
    root
  }

  lemma ListRootIs(base: nat, vals: seq<Blob>)
    requires base + |vals| <= TWO_64
    ensures ListRoot(base, vals) == T.RootHash(R.Run(IndexOps(base, vals)))
  {
    assert Opens(0);
  }

  /** The root commits to the list: its length, its elements and their order. */
  lemma ListRootCommits(base: nat, a: seq<Blob>, b: seq<Blob>)
    requires base + |a| < TWO_64 && base + |b| < TWO_64 && NonEmpty(a) && NonEmpty(b)
    ensures ListRoot(base, a) == ListRoot(base, b) <==> a == b
  {
    ListRootIs(base, a);
    ListRootIs(base, b);
    IndexRootCommits(base, a, b);
  }

  lemma RunStep(ops: seq<R.Op>, op: R.Op)
    requires op.Update? && Len(op.value) > 0
    ensures R.Run(ops + [op]) == T.Put(R.Run(ops), KeyToBinary(op.key), T.Val(op.value))
  {
    assert (ops + [op])[..|ops|] == ops;
  }

  /** The loop shared by the two root computations. */
  method IndexTrie(base: nat, vals: seq<Blob>) returns (trie: Trie, root: Blob)
    requires base + |vals| <= TWO_64 && NonEmpty(vals)
    ensures fresh(trie) && trie.Complete() && trie.tree == R.Run(IndexOps(base, vals))
    ensures root == T.RootHash(trie.tree) == ListRoot(base, vals)
  {
    trie := new Trie(map[]);
    ghost var ops := IndexOps(base, vals);
    for i := 0 to |vals|
      invariant fresh(trie) && trie.Complete() && trie.tree == R.Run(ops[..i])
    {
      IndexOpsStep(base, vals, i);
      RunStep(ops[..i], R.Update(RlpUint(base + i), vals[i]));
      var r := trie.TryUpdate(RlpUint(base + i), vals[i]);
    }
    assert ops[..|vals|] == ops;
    ListRootIs(base, vals);
    root := trie.Hash();
  }

  // ----- chunks and their roots

  function Hashes(txs: seq<Tx>): seq<Blob> {
    seq(|txs|, i requires 0 <= i < |txs| => txs[i].hash)
  }

  ghost function ChunkRoot(txs: seq<Tx>): Blob
    requires TxsOk(txs)
  {
    ListRoot(1, Hashes(txs))
  }

  /** Chunks with the same root list the same transactions. */
  lemma ChunkRootCommits(a: seq<Tx>, b: seq<Tx>)
    requires TxsOk(a) && TxsOk(b)
    ensures ChunkRoot(a) == ChunkRoot(b) <==> Hashes(a) == Hashes(b)
  {
    ListRootCommits(1, Hashes(a), Hashes(b));
  }

  method GetChunkRoot(txs: seq<Tx>) returns (root: Blob)
    requires TxsOk(txs)
    ensures root == ChunkRoot(txs)
  {
    var trie;
    trie, root := IndexTrie(1, Hashes(txs));
  }

  ghost predicate ChunksOk(chunks: seq<Chunk>) {
    |chunks| < TWO_64 - FIRST_SHARD && forall i :: 0 <= i < |chunks| ==> TxsOk(chunks[i].txs)
  }

  ghost function Roots(chunks: seq<Chunk>): seq<Blob>
    requires ChunksOk(chunks)
  {
    seq(|chunks|, i requires 0 <= i < |chunks| => ChunkRoot(chunks[i].txs))
  }

  /** The transaction root of a block: the chunk of shard i under the number of the shard. */
  ghost function TxRoot(chunks: seq<Chunk>): Blob
    requires ChunksOk(chunks)
  {
    ListRoot(FIRST_SHARD, Roots(chunks))
  }

  lemma RootsNonEmpty(chunks: seq<Chunk>)
    requires ChunksOk(chunks)
    ensures NonEmpty(Roots(chunks))
  {
  }

  method GetBlockTxRoot(chunks: seq<Chunk>) returns (trie: Trie, root: Blob)
    requires ChunksOk(chunks)
    ensures fresh(trie) && trie.Complete() && BlockTrie(trie.tree, chunks)
    ensures root == T.RootHash(trie.tree) == TxRoot(chunks)
  {
    var roots := [];
    for i := 0 to |chunks|
      invariant roots == Roots(chunks)[..i]
    {
      var h := GetChunkRoot(chunks[i].txs);
      roots := roots + [h];
    }
    assert roots == Roots(chunks);
    RootsNonEmpty(chunks);
    trie, root := IndexTrie(FIRST_SHARD, roots);
    IsBlockTrie(chunks, trie.tree);
  }

  // ----- checking a chunk against a header

  /** The proof nodes under their own hashes. */
  function ProofStore(proof: seq<Item>): (db: Store)
    ensures StoreOk(db)
  {
    if |proof| == 0 then map[]
    else ProofStore(proof[..|proof| - 1])[Keccak(proof[|proof| - 1]) := proof[|proof| - 1]]
  }

  /** Any failure of the verification reads as the zero hash, which is no chunk's root. */
  ghost predicate Passes(txRoot: Blob, chunk: Chunk)
    requires TxsOk(chunk.txs)
  {
    |chunk.txs| == 0 ||
    Verify(txRoot, KeyToBinary(RlpUint(chunk.txs[0].toShard)), ProofStore(chunk.proof)) ==
        Answer(Some(ChunkRoot(chunk.txs)))
  }

  method CheckInboundChunk(txRoot: Blob, chunk: Chunk) returns (ok: bool)
    requires TxsOk(chunk.txs)
    ensures ok <==> Passes(txRoot, chunk)
  {
    if |chunk.txs| == 0 {
      return true;
    }
    var chunkRoot := GetChunkRoot(chunk.txs);
    var db: Store := map[];
    for j := 0 to |chunk.proof|
      invariant db == ProofStore(chunk.proof[..j])
    {
      assert chunk.proof[..j + 1][..j] == chunk.proof[..j];
      db := db[Keccak(chunk.proof[j]) := chunk.proof[j]];
    }
    assert chunk.proof[..|chunk.proof|] == chunk.proof;
    var v := VerifyProof(txRoot, RlpUint(chunk.txs[0].toShard), db);
    ok := v == Answer(Some(chunkRoot));
  }

  /** The tree holds the root of every chunk under the number of its shard, and no other number. */
  ghost predicate BlockTrie(t: T.Tree, chunks: seq<Chunk>)
    requires ChunksOk(chunks)
  {
    T.Root(t) && forall s {:trigger HoldsChunk(t, chunks, s)} :: 0 <= s < TWO_64 ==> HoldsChunk(t, chunks, s)
  }

  ghost predicate HoldsChunk(t: T.Tree, chunks: seq<Chunk>, s: nat)
    requires ChunksOk(chunks) && s < TWO_64
  {
    T.Get(t, KeyToBinary(RlpUint(s))) ==
    if FIRST_SHARD <= s < FIRST_SHARD + |chunks| then Some(ChunkRoot(chunks[s - FIRST_SHARD].txs)) else None
  }

  /** Closed: t is the trie of a list. */
  ghost predicate Lists(t: T.Tree, base: nat, vals: seq<Blob>)
    requires base + |vals| <= TWO_64
  {
    forall key :: Opens(key) ==> t == R.Run(IndexOps(base, vals))
  }

  lemma ListsGet(t: T.Tree, base: nat, vals: seq<Blob>, n: nat)
    requires base + |vals| <= TWO_64 && NonEmpty(vals) && n < TWO_64 && Lists(t, base, vals)
    ensures T.Root(t)
    ensures T.Get(t, KeyToBinary(RlpUint(n))) == if base <= n < base + |vals| then Some(vals[n - base]) else None
  {
    assert Opens(0);
    R.RunHolds(IndexOps(base, vals));
    IndexGet(base, vals, n);
  }

  lemma IsBlockTrie(chunks: seq<Chunk>, t: T.Tree)
    requires ChunksOk(chunks) && t == R.Run(IndexOps(FIRST_SHARD, Roots(chunks)))
    ensures BlockTrie(t, chunks)
  {
    ListsRoots(chunks, t);
  }

  lemma ListsRoots(chunks: seq<Chunk>, t: T.Tree)
    requires ChunksOk(chunks) && Lists(t, FIRST_SHARD, Roots(chunks))
    ensures BlockTrie(t, chunks)
  {
    RootsNonEmpty(chunks);
    ListsGet(t, FIRST_SHARD, Roots(chunks), 0);
    forall s | 0 <= s < TWO_64
      ensures HoldsChunk(t, chunks, s)
    {
      IsHoldingChunk(chunks, t, s);
    }
  }

  lemma {:induction false} IsHoldingChunk(chunks: seq<Chunk>, t: T.Tree, s: nat)
    requires ChunksOk(chunks) && Lists(t, FIRST_SHARD, Roots(chunks)) && s < TWO_64
    ensures HoldsChunk(t, chunks, s)
  {
    var roots := Roots(chunks);
    RootsNonEmpty(chunks);
    RootsAt(chunks, s);
    ListsGet(t, FIRST_SHARD, roots, s);
    HoldsRoot(t, chunks, roots, s);
  }

  lemma {:induction false} HoldsRoot(t: T.Tree, chunks: seq<Chunk>, roots: seq<Blob>, s: nat)
    requires ChunksOk(chunks) && |roots| == |chunks| && s < TWO_64
    requires FIRST_SHARD <= s < FIRST_SHARD + |chunks| ==>
        roots[s - FIRST_SHARD] == ChunkRoot(chunks[s - FIRST_SHARD].txs)
    requires T.Get(t, KeyToBinary(RlpUint(s))) ==
        if FIRST_SHARD <= s < FIRST_SHARD + |chunks| then Some(roots[s - FIRST_SHARD]) else None
    ensures HoldsChunk(t, chunks, s)
  {
  }

  lemma RootsAt(chunks: seq<Chunk>, s: nat)
    requires ChunksOk(chunks)
    ensures FIRST_SHARD <= s < FIRST_SHARD + |chunks| ==>
        Roots(chunks)[s - FIRST_SHARD] == ChunkRoot(chunks[s - FIRST_SHARD].txs)
    ensures |Roots(chunks)| == |chunks|
  {
  }

  /**
    Soundness: a chunk that passes against the root of a block's chunks is for a shard of the block
    and lists exactly the transactions of the block's own chunk for that shard, in order.
   */
  lemma ChunkSound(t: T.Tree, chunks: seq<Chunk>, chunk: Chunk, s: nat)
    requires ChunksOk(chunks) && BlockTrie(t, chunks) && TxsOk(chunk.txs)
    requires |chunk.txs| > 0 && s == chunk.txs[0].toShard && Passes(T.RootHash(t), chunk)
    ensures FIRST_SHARD <= s < FIRST_SHARD + |chunks| && Hashes(chunk.txs) == Hashes(chunks[s - FIRST_SHARD].txs)
  {
    BlockTrieAt(t, chunks, s);
    ChunkSoundAt(t, chunks, chunk, s);
  }

  /** Such a chunk is the block's own one, if that has recomputed hashes, exactly if it has them too. */
  lemma ChunkGenuine(t: T.Tree, chunks: seq<Chunk>, chunk: Chunk, s: nat)
    requires ChunksOk(chunks) && BlockTrie(t, chunks) && TxsOk(chunk.txs)
    requires |chunk.txs| > 0 && s == chunk.txs[0].toShard && Passes(T.RootHash(t), chunk)
    ensures FIRST_SHARD <= s < FIRST_SHARD + |chunks|
    ensures Recomputed(chunks[s - FIRST_SHARD].txs) ==>
        (chunk.txs == chunks[s - FIRST_SHARD].txs <==> Recomputed(chunk.txs))
  {
    ChunkSound(t, chunks, chunk, s);
    if Recomputed(chunks[s - FIRST_SHARD].txs) {
      SameHashes(chunk.txs, chunks[s - FIRST_SHARD].txs);
    }
  }

  /** The check reads the hash fields and the first destination; amounts and addresses may be altered. */
  lemma AlteredPasses(txRoot: Blob, c: Chunk, a: Chunk)
    requires TxsOk(c.txs) && TxsOk(a.txs) && c.proof == a.proof && Hashes(c.txs) == Hashes(a.txs)
    requires |c.txs| > 0 ==> |a.txs| > 0 && c.txs[0].toShard == a.txs[0].toShard
    ensures Passes(txRoot, c) <==> Passes(txRoot, a)
  {
    assert |Hashes(c.txs)| == |c.txs| && |Hashes(a.txs)| == |a.txs|;
  }

  lemma ChunkSoundAt(t: T.Tree, chunks: seq<Chunk>, chunk: Chunk, s: nat)
    requires ChunksOk(chunks) && TxsOk(chunk.txs) && |chunk.txs| > 0 && s == chunk.txs[0].toShard
    requires T.Root(t) && HoldsChunk(t, chunks, s) && Passes(T.RootHash(t), chunk)
    ensures FIRST_SHARD <= s < FIRST_SHARD + |chunks| && Hashes(chunk.txs) == Hashes(chunks[s - FIRST_SHARD].txs)
  {
    PassesSound(t, chunk);
    SameRoot(t, chunks, chunk, s);
  }

  lemma BlockTrieAt(t: T.Tree, chunks: seq<Chunk>, s: nat)
    requires ChunksOk(chunks) && BlockTrie(t, chunks) && s < TWO_64
    ensures T.Root(t) && HoldsChunk(t, chunks, s)
  {
  }

  lemma SameRoot(t: T.Tree, chunks: seq<Chunk>, chunk: Chunk, s: nat)
    requires ChunksOk(chunks) && s < TWO_64 && HoldsChunk(t, chunks, s) && TxsOk(chunk.txs)
    requires T.Get(t, KeyToBinary(RlpUint(s))) == Some(ChunkRoot(chunk.txs))
    ensures FIRST_SHARD <= s < FIRST_SHARD + |chunks| && Hashes(chunk.txs) == Hashes(chunks[s - FIRST_SHARD].txs)
  {
    ChunkRootCommits(chunk.txs, chunks[s - FIRST_SHARD].txs);
  }

  lemma PassesSound(t: T.Tree, chunk: Chunk)
    requires T.Root(t) && TxsOk(chunk.txs) && |chunk.txs| > 0 && Passes(T.RootHash(t), chunk)
    ensures T.Get(t, KeyToBinary(RlpUint(chunk.txs[0].toShard))) == Some(ChunkRoot(chunk.txs))
  {
    VerifyProofSound(t, KeyToBinary(RlpUint(chunk.txs[0].toShard)), ProofStore(chunk.proof));
  }

  // ----- cutting a block into chunks

  /** The transactions for one shard, in the order of the block. */
  function For(txs: seq<Tx>, shard: nat): seq<Tx> {
    if |txs| == 0 then []
    else For(txs[..|txs| - 1], shard) + if txs[|txs| - 1].toShard == shard then [txs[|txs| - 1]] else []
  }

  lemma {:induction false} ForOk(txs: seq<Tx>, shard: nat)
    requires TxsOk(txs)
    ensures TxsOk(For(txs, shard)) && |For(txs, shard)| <= |txs|
    ensures forall i :: 0 <= i < |For(txs, shard)| ==> For(txs, shard)[i].toShard == shard
  {
    if |txs| > 0 {
      ForOk(txs[..|txs| - 1], shard);
    }
  }

  /** The transactions for a shard are picked out one by one and keep their order. */
  lemma {:induction false} ForConcat(a: seq<Tx>, b: seq<Tx>, shard: nat)
    ensures For(a + b, shard) == For(a, shard) + For(b, shard)
    ensures |b| == 1 ==> For(b, shard) == if b[0].toShard == shard then b else []
  {
    if |b| == 0 {
      assert a + b == a;
    } else {
      var f := b[..|b| - 1];
      assert (a + b)[..|a + b| - 1] == a + f;
      ForConcat(a, f, shard);
    }
  }

  predicate InRange(txs: seq<Tx>, n: nat) {
    forall i :: 0 <= i < |txs| ==> FIRST_SHARD <= txs[i].toShard < FIRST_SHARD + n
  }

  /** One chunk for each shard. */
  ghost predicate CutFrom(chunks: seq<Chunk>, txs: seq<Tx>, n: nat) {
    |chunks| == n && forall k :: 0 <= k < n ==> chunks[k] == Chunk(Raw([]), For(txs, FIRST_SHARD + k), [])
  }

  ghost function Cut(txs: seq<Tx>, n: nat): (chunks: seq<Chunk>)
    ensures CutFrom(chunks, txs, n)
  {
    seq(n, k requires 0 <= k < n => Chunk(Raw([]), For(txs, FIRST_SHARD + k), []))
  }

  lemma CutUnique(chunks: seq<Chunk>, txs: seq<Tx>, n: nat)
    requires CutFrom(chunks, txs, n)
    ensures chunks == Cut(txs, n)
  {
  }

  /** Appends every transaction to the chunk of its destination; others are an index out of range. */
  method CutChunks(txs: seq<Tx>, n: nat) returns (chunks: seq<Chunk>)
    requires InRange(txs, n)
    ensures CutFrom(chunks, txs, n)
  {
    chunks := seq(n, i => Chunk(Raw([]), [], []));
    for i := 0 to |txs|
      invariant CutFrom(chunks, txs[..i], n)
    {
      var k := txs[i].toShard - FIRST_SHARD;
      assert txs[..i + 1][..i] == txs[..i];
      chunks := chunks[k := chunks[k].(txs := chunks[k].txs + [txs[i]])];
    }
    assert txs[..|txs|] == txs;
  }

  lemma CutOk(chunks: seq<Chunk>, txs: seq<Tx>, n: nat)
    requires CutFrom(chunks, txs, n) && TxsOk(txs) && n < TWO_64 - FIRST_SHARD
    ensures ChunksOk(chunks)
    ensures forall k :: 0 <= k < n && |chunks[k].txs| > 0 ==> chunks[k].txs[0].toShard == FIRST_SHARD + k
  {
    forall k | 0 <= k < n
      ensures TxsOk(chunks[k].txs) && (|chunks[k].txs| > 0 ==> chunks[k].txs[0].toShard == FIRST_SHARD + k)
    {
      ForOk(txs, FIRST_SHARD + k);
    }
  }

  /** A list of the nodes of a proof. */
  method Enumerate(db: Store) returns (proof: seq<Item>)
    requires StoreOk(db)
    ensures ProofStore(proof) == db
  {
    proof := [];
    var rest := db;
    ghost var done: Store := map[];
    while rest.Keys != {}
      invariant rest.Keys <= db.Keys && done.Keys == db.Keys - rest.Keys
      invariant StoreOk(done) && done == ProofStore(proof) && (forall h :: h in rest ==> rest[h] == db[h])
          && (forall h :: h in done ==> done[h] == db[h])
      decreases rest.Keys
    {
      var h :| h in rest.Keys;
      var item := rest[h];
      assert (proof + [item])[..|proof|] == proof;
      done := done[h := item];
      proof := proof + [item];
      rest := rest - {h};
    }
  }

  /** A chunk of a block together with a proof that passes. */
  ghost predicate Proven(txRoot: Blob, chunk: Chunk, c: Chunk, blockHash: Blob) {
    TxsOk(c.txs) && c.txs == chunk.txs && c.blockHash == blockHash && Passes(txRoot, c)
  }

  /** What a block's chunk must be to be proven: for shard s, in the tree under that number. */
  ghost predicate Provable(t: T.Tree, chunks: seq<Chunk>) {
    && ChunksOk(chunks) && BlockTrie(t, chunks)
    && forall k :: 0 <= k < |chunks| && |chunks[k].txs| > 0 ==> chunks[k].txs[0].toShard == FIRST_SHARD + k
  }

  /** Every chunk gets the proof for its shard and passes against the root of the tree. */
  method ProveChunks(trie: Trie, chunks: seq<Chunk>, blockHash: Blob) returns (out: seq<Chunk>)
    requires trie.Complete() && Provable(trie.tree, chunks)
    ensures |out| == |chunks| && forall k :: 0 <= k < |out| ==>
        Proven(T.RootHash(trie.tree), chunks[k], out[k], blockHash)
  {
    out := [];
    ghost var root := T.RootHash(trie.tree);
    for i := 0 to |chunks|
      invariant |out| == i && forall k :: 0 <= k < i ==> Proven(root, chunks[k], out[k], blockHash)
    {
      var c := ProveOne(trie, chunks, i, FIRST_SHARD + i, blockHash);
      out := out + [c];
    }
  }

  method ProveOne(trie: Trie, chunks: seq<Chunk>, i: nat, shard: nat, blockHash: Blob) returns (c: Chunk)
    requires trie.Complete() && Provable(trie.tree, chunks) && i < |chunks| && shard == FIRST_SHARD + i
    ensures Proven(T.RootHash(trie.tree), chunks[i], c, blockHash)
  {
    BlockTrieAt(trie.tree, chunks, shard);
    c := ProveChunk(trie, chunks[i], shard, blockHash);
  }

  method ProveChunk(trie: Trie, chunk: Chunk, shard: nat, blockHash: Blob) returns (c: Chunk)
    requires trie.Complete() && TxsOk(chunk.txs) && shard < TWO_64
    requires |chunk.txs| > 0 ==> chunk.txs[0].toShard == shard
    requires T.Get(trie.tree, KeyToBinary(RlpUint(shard))) == Some(ChunkRoot(chunk.txs))
    ensures Proven(T.RootHash(trie.tree), chunk, c, blockHash)
  {
    var r := Prove(trie.db, trie.root, RlpUint(shard), 0, map[], trie.tree);
    var proof := Enumerate(r.value);
    c := Chunk(blockHash, chunk.txs, proof);
  }

  // ----- a proof for every chunk

  /** The nodes on the way to a shard's chunk. */
  ghost function PathProof(t: T.Tree, key: seq<byte>): seq<Item> {
    var path := PathTrees(t, key);
    seq(|path|, i requires 0 <= i < |path| => T.Enc(path[i]))
  }

  lemma {:induction false} ProofStoreHas(proof: seq<Item>, i: nat)
    requires i < |proof|
    ensures Keccak(proof[i]) in ProofStore(proof)
  {
    if i < |proof| - 1 {
      ProofStoreHas(proof[..|proof| - 1], i);
    }
  }

  lemma PathProofStored(t: T.Tree, key: seq<byte>)
    ensures PathStored(ProofStore(PathProof(t, key)), PathTrees(t, key), true)
  {
    var path := PathTrees(t, key);
    forall i | 0 <= i < |path|
      ensures Keccak(T.Enc(path[i])) in ProofStore(PathProof(t, key))
    {
      ProofStoreHas(PathProof(t, key), i);
    }
  }

  /** Any chunk whose root is in the tree under its first destination has a proof. */
  lemma HasProof(t: T.Tree, txs: seq<Tx>, h: Blob) returns (c: Chunk)
    requires T.Root(t) && TxsOk(txs) && |txs| > 0
    requires T.Get(t, KeyToBinary(RlpUint(txs[0].toShard))) == Some(ChunkRoot(txs))
    ensures c.blockHash == h && c.txs == txs && Passes(T.RootHash(t), c)
  {
    var key := KeyToBinary(RlpUint(txs[0].toShard));
    c := Chunk(h, txs, PathProof(t, key));
    PathProofStored(t, key);
    VerifyComplete(t, key, ProofStore(c.proof));
  }

  /** The chunks cut from a list of transactions, and the trie and root over them. */
  method MakeChunks(txs: seq<Tx>, n: nat) returns (trie: Trie, chunks: seq<Chunk>, root: Blob)
    requires TxsOk(txs) && InRange(txs, n) && n < TWO_64 - FIRST_SHARD
    ensures CutFrom(chunks, txs, n) && ChunksOk(chunks) && root == TxRoot(chunks)
    ensures fresh(trie) && trie.Complete() && T.RootHash(trie.tree) == root && Provable(trie.tree, chunks)
  {
    chunks := CutChunks(txs, n);
    CutOk(chunks, txs, n);
    trie, root := GetBlockTxRoot(chunks);
  }
}
