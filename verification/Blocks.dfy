/**
  Blocks of a shard: what the leader puts into one and what the check of a validator says about it.
 */
module Blocks {
  import opened Encoding
  import opened Rlp
  import opened Uints
  import opened Journal
  import opened Chunks
  import opened Execution
  import T = Trees
  import S = StateDB
  import NodeCache

  /** dst is the bitmap of the shards that the block pays to. */
  datatype Header = Header(shardId: nat, height: nat, prev: Blob, stateRoot: Blob, txRoot: Blob, dst: seq<bv8>,
      time: nat)

  datatype Block = Block(header: Header, txs: seq<Tx>, inbound: seq<Chunk>)

  function Octets(dst: seq<bv8>): seq<byte> {
    seq(|dst|, i requires 0 <= i < |dst| => dst[i] as int)
  }

  function HeaderHash(h: Header): Blob {
    Keccak(List([Field(h.shardId), Str(h.prev), Field(h.height), Str(Raw(Octets(h.dst))),
                 Str(h.txRoot), Str(h.stateRoot), Field(h.time)]))
  }

  lemma OctetsInjective(s: seq<bv8>, t: seq<bv8>)
    requires Octets(s) == Octets(t)
    ensures s == t
  {
    assert |Octets(s)| == |Octets(t)|;
    forall i | 0 <= i < |s|
      ensures s[i] == t[i]
    {
      assert Octets(s)[i] == Octets(t)[i];
    }
  }

  lemma HeaderHashInjective(h: Header, g: Header)
    requires HeaderHash(h) == HeaderHash(g)
    ensures h == g
  {
    var hs := HeaderHash(h).preimage.items;
    var gs := HeaderHash(g).preimage.items;
    assert hs[0] == Field(h.shardId) && hs[2] == Field(h.height) && hs[6] == Field(h.time);
    assert gs[0] == Field(g.shardId) && gs[2] == Field(g.height) && gs[6] == Field(g.time);
    FieldInjective(h.shardId, g.shardId);
    FieldInjective(h.height, g.height);
    FieldInjective(h.time, g.time);
    assert hs[3] == Str(Raw(Octets(h.dst))) && gs[3] == Str(Raw(Octets(g.dst)));
    OctetsInjective(h.dst, g.dst);
    assert hs[1] == Str(h.prev) && hs[4] == Str(h.txRoot) && hs[5] == Str(h.stateRoot);
    assert gs[1] == Str(g.prev) && gs[4] == Str(g.txRoot) && gs[5] == Str(g.stateRoot);
  }

  predicate BlockOk(b: Block) {
    TxsOk(b.txs) && forall i :: 0 <= i < |b.inbound| ==> TxsOk(b.inbound[i].txs)
  }

  // ----- state roots

  /** root is the root of the account trie that holds exactly m. */
  ghost predicate IsStateRoot(root: Blob, m: Accounts) {
    exists t :: S.Keeps(t, m) && root == T.RootHash(t)
  }

  /** Accounts and roots determine each other. */
  lemma StateRootsAgree(r: Blob, m: Accounts, r': Blob, m': Accounts)
    requires IsStateRoot(r, m) && IsStateRoot(r', m')
    ensures r == r' <==> m == m'
  {
    var t :| S.Keeps(t, m) && r == T.RootHash(t);
    var t' :| S.Keeps(t', m') && r' == T.RootHash(t');
    S.StateRootCommits(t, m, t', m');
  }

  // ----- the first block

  const GRANT := 10_000_000

  /** Every configured account is credited, one listed twice twice. */
  function Granted(m: Accounts, accounts: seq<Address>): Accounts {
    if |accounts| == 0 then m else Added(Granted(m, accounts[..|accounts| - 1]), accounts[|accounts| - 1], GRANT)
  }

  // ----- checking

  /** Waiting: the source waits for a header that has not arrived; Crashed: it panics. */
  datatype Verdict = Accepted | Rejected | Waiting | Crashed

  /** Headers known from other shards, by shard and block hash. */
  type Headers = map<nat, map<Blob, Header>>

  ghost function ChunkVerdict(headers: Headers, c: Chunk): Verdict
    requires TxsOk(c.txs)
  {
    if |c.txs| == 0 then Rejected
    else if c.txs[0].fromShard !in headers then Crashed
    else if c.blockHash !in headers[c.txs[0].fromShard] then Waiting
    else if Passes(headers[c.txs[0].fromShard][c.blockHash].txRoot, c) then Accepted
    else Rejected
  }

  /** The chunk has transactions, and the header it must fit is known. */
  predicate Reachable(headers: Headers, c: Chunk) {
    |c.txs| > 0 && c.txs[0].fromShard in headers && c.blockHash in headers[c.txs[0].fromShard]
  }

  /** The verdict on the first chunk that is not accepted. */
  ghost function InboundVerdict(headers: Headers, chunks: seq<Chunk>): Verdict
    requires forall i :: 0 <= i < |chunks| ==> TxsOk(chunks[i].txs)
  {
    if |chunks| == 0 then Accepted
    else
      var v := InboundVerdict(headers, chunks[..|chunks| - 1]);
      if v.Accepted? then ChunkVerdict(headers, chunks[|chunks| - 1]) else v
  }

  /** What a chunk must be to be accepted: with transactions, under a known header, and with a proof that fits. */
  ghost predicate Fitting(headers: Headers, c: Chunk)
    requires TxsOk(c.txs)
  {
    Reachable(headers, c) && Passes(headers[c.txs[0].fromShard][c.blockHash].txRoot, c)
  }

  ghost predicate AllFitting(headers: Headers, chunks: seq<Chunk>)
    requires forall i :: 0 <= i < |chunks| ==> TxsOk(chunks[i].txs)
  {
    forall i :: 0 <= i < |chunks| ==> Fitting(headers, chunks[i])
  }

  lemma {:induction false} FittingSnoc(headers: Headers, chunks: seq<Chunk>, f: seq<Chunk>, c: Chunk)
    requires (forall i :: 0 <= i < |chunks| ==> TxsOk(chunks[i].txs)) && chunks == f + [c] && TxsOk(c.txs)
    requires forall i :: 0 <= i < |f| ==> TxsOk(f[i].txs)
    ensures AllFitting(headers, chunks) <==> AllFitting(headers, f) && Fitting(headers, c)
  {
    if AllFitting(headers, chunks) {
      assert Fitting(headers, chunks[|f|]);
      forall i | 0 <= i < |f|
        ensures Fitting(headers, f[i])
      {
        assert chunks[i] == f[i];
      }
    }
  }

  /** Inbound chunks are accepted exactly if every one is. */
  lemma {:induction false} InboundExact(headers: Headers, chunks: seq<Chunk>)
    requires forall i :: 0 <= i < |chunks| ==> TxsOk(chunks[i].txs)
    ensures InboundVerdict(headers, chunks).Accepted? <==> AllFitting(headers, chunks)
  {
    if |chunks| > 0 {
      var f, c := chunks[..|chunks| - 1], chunks[|chunks| - 1];
      InboundExact(headers, f);
      FittingSnoc(headers, chunks, f, c);
      VerdictFitting(headers, c);
    }
  }

  lemma VerdictFitting(headers: Headers, c: Chunk)
    requires TxsOk(c.txs)
    ensures ChunkVerdict(headers, c).Accepted? <==> Fitting(headers, c)
  {
  }

  /** The part of the configuration that matters here. */
  datatype Config = Config(shardId: nat, shardNum: nat, accounts: seq<Address>)

  predicate ConfigOk(g: Config) {
    g.shardNum < TWO_64 - FIRST_SHARD
  }

  ghost function TxRootOf(txs: seq<Tx>, n: nat): Blob
    requires TxsOk(txs) && n < TWO_64 - FIRST_SHARD
  {
    CutOk(Cut(txs, n), txs, n);
    TxRoot(Cut(txs, n))
  }

  ghost function Check(g: Config, m: Accounts, latest: Option<Block>, headers: Headers, b: Block): Verdict
    requires ConfigOk(g) && BlockOk(b)
  {
    if b.header.height == 0 then
      if IsStateRoot(b.header.stateRoot, Granted(m, g.accounts)) then Accepted else Rejected
    else if latest.None? || b.header.height != latest.value.header.height + 1 then Rejected
    else
      var v := InboundVerdict(headers, b.inbound);
      if !v.Accepted? then v
      else if !IsStateRoot(b.header.stateRoot, Executed(m, g.shardId, b.inbound, b.txs)) then Rejected
      else if !InRange(b.txs, g.shardNum) then Crashed
      else if b.header.txRoot == TxRootOf(b.txs, g.shardNum) then Accepted
      else Rejected
  }

  /**
    A block is accepted exactly if it is the next one, all its chunks fit, its state root is that of the
    accounts it leaves, and its transaction root that of its transactions; the first one exactly if its
    state root is that of the accounts granted.
   */
  lemma CheckExact(g: Config, m: Accounts, latest: Option<Block>, headers: Headers, b: Block)
    requires ConfigOk(g) && BlockOk(b)
    ensures Check(g, m, latest, headers, b) == Accepted <==>
            && IsStateRoot(b.header.stateRoot, Result(g, m, b))
            && (b.header.height > 0 ==>
                && latest.Some? && b.header.height == latest.value.header.height + 1
                && AllFitting(headers, b.inbound)
                && InRange(b.txs, g.shardNum) && b.header.txRoot == TxRootOf(b.txs, g.shardNum))
  {
    InboundExact(headers, b.inbound);
  }

  /** What the accounts are after a block. */
  function Result(g: Config, m: Accounts, b: Block): Accounts
    requires TxsOk(b.txs)
  {
    if b.header.height == 0 then Granted(m, g.accounts) else Executed(m, g.shardId, b.inbound, b.txs)
  }

  // ----- building

  /** Shards that funded transactions of the block go to, counted from the first. */
  ghost function Targets(m: Accounts, shard: nat, txs: seq<Tx>): set<nat>
    requires Values(txs)
  {
    if |txs| == 0 then {}
    else
      var f, tx := txs[..|txs| - 1], txs[|txs| - 1];
      Targets(m, shard, f) + Target(Transfers(m, shard, f), shard, tx)
  }

  function Target(m: Accounts, shard: nat, tx: Tx): set<nat> {
    if Funded(m, shard, tx) && tx.toShard != shard && tx.toShard >= FIRST_SHARD then {tx.toShard - FIRST_SHARD} else {}
  }

  /** b is the block a leader with these accounts builds from inbound chunks and transactions. */
  ghost predicate Builds(g: Config, m: Accounts, latest: Option<Block>, b: Block)
    requires ConfigOk(g) && TxsOk(b.txs)
  {
    && b.header.shardId == g.shardId
    && IsStateRoot(b.header.stateRoot, Result(g, m, b))
    && if latest.None? then b.header.height == 0 && b.header.prev == NodeCache.ZERO && b.txs == [] && b.inbound == []
       else
         && b.header.height == latest.value.header.height + 1 && b.header.prev == HeaderHash(latest.value.header)
         && InRange(b.txs, g.shardNum) && b.header.txRoot == TxRootOf(b.txs, g.shardNum)
  }

  /** A leader's block is accepted by every validator with the same accounts, chain and headers. */
  lemma BuiltIsAccepted(g: Config, m: Accounts, latest: Option<Block>, headers: Headers, b: Block)
    requires ConfigOk(g) && BlockOk(b) && Builds(g, m, latest, b) && InboundVerdict(headers, b.inbound).Accepted?
    ensures Check(g, m, latest, headers, b) == Accepted
  {
  }

  // ----- accounts that differ only in empty ones

  ghost predicate SameBalances(m: Accounts, m': Accounts) {
    forall a :: Balance(m, a) == Balance(m', a)
  }

  function Met(m: Accounts, shard: nat, tx: Tx): set<Address> {
    if !Funded(m, shard, tx) then {} else if tx.toShard == shard then {tx.fromAddr, tx.toAddr} else {tx.fromAddr}
  }

  function CreditedBy(shard: nat, txs: seq<Tx>): set<Address> {
    if |txs| == 0 then {}
    else CreditedBy(shard, txs[..|txs| - 1]) + if IsInbound(shard, txs[|txs| - 1]) then {txs[|txs| - 1].toAddr} else {}
  }

  function BroughtTo(shard: nat, chunks: seq<Chunk>): set<Address> {
    if |chunks| == 0 then {} else BroughtTo(shard, chunks[..|chunks| - 1]) + CreditedBy(shard, chunks[|chunks| - 1].txs)
  }

  function MovedBy(m: Accounts, shard: nat, txs: seq<Tx>): set<Address>
    requires Values(txs)
  {
    if |txs| == 0 then {}
    else MovedBy(m, shard, txs[..|txs| - 1]) + Met(Transfers(m, shard, txs[..|txs| - 1]), shard, txs[|txs| - 1])
  }

  /** The accounts a block writes. */
  function Touched(m: Accounts, shard: nat, chunks: seq<Chunk>, txs: seq<Tx>): set<Address>
    requires Values(txs)
  {
    BroughtTo(shard, chunks) + MovedBy(Inbound(m, shard, chunks), shard, txs)
  }

  lemma {:induction false} CreditsKeys(m: Accounts, shard: nat, txs: seq<Tx>)
    ensures Credits(m, shard, txs).Keys == m.Keys + CreditedBy(shard, txs)
  {
    if |txs| > 0 {
      CreditsKeys(m, shard, txs[..|txs| - 1]);
    }
  }

  lemma {:induction false} InboundKeys(m: Accounts, shard: nat, chunks: seq<Chunk>)
    ensures Inbound(m, shard, chunks).Keys == m.Keys + BroughtTo(shard, chunks)
  {
    if |chunks| > 0 {
      InboundKeys(m, shard, chunks[..|chunks| - 1]);
      CreditsKeys(Inbound(m, shard, chunks[..|chunks| - 1]), shard, chunks[|chunks| - 1].txs);
    }
  }

  lemma {:induction false} TransfersKeys(m: Accounts, shard: nat, txs: seq<Tx>)
    requires Values(txs)
    ensures Transfers(m, shard, txs).Keys == m.Keys + MovedBy(m, shard, txs)
  {
    if |txs| > 0 {
      TransfersKeys(m, shard, txs[..|txs| - 1]);
    }
  }

  lemma SetSame(m: Accounts, m': Accounts, a: Address, v: nat)
    requires SameBalances(m, m')
    ensures SameBalances(m[a := v], m'[a := v])
  {
    var n, n' := m[a := v], m'[a := v];
    forall x
      ensures Balance(n, x) == Balance(n', x)
    {
      assert Balance(m, x) == Balance(m', x);
    }
  }

  lemma AddedSame(m: Accounts, m': Accounts, a: Address, v: nat)
    requires SameBalances(m, m')
    ensures SameBalances(Added(m, a, v), Added(m', a, v))
  {
    SetSame(m, m', a, (Balance(m, a) + v) % TWO_64);
  }

  lemma {:induction false} CreditsSame(m: Accounts, m': Accounts, shard: nat, txs: seq<Tx>)
    requires SameBalances(m, m')
    ensures SameBalances(Credits(m, shard, txs), Credits(m', shard, txs))
  {
    if |txs| > 0 {
      var f, tx := txs[..|txs| - 1], txs[|txs| - 1];
      CreditsSame(m, m', shard, f);
      AddedSame(Credits(m, shard, f), Credits(m', shard, f), tx.toAddr, tx.value);
    }
  }

  lemma {:induction false} InboundSame(m: Accounts, m': Accounts, shard: nat, chunks: seq<Chunk>)
    requires SameBalances(m, m')
    ensures SameBalances(Inbound(m, shard, chunks), Inbound(m', shard, chunks))
  {
    if |chunks| > 0 {
      var f := chunks[..|chunks| - 1];
      InboundSame(m, m', shard, f);
      CreditsSame(Inbound(m, shard, f), Inbound(m', shard, f), shard, chunks[|chunks| - 1].txs);
    }
  }

  lemma TransferSame(m: Accounts, m': Accounts, shard: nat, tx: Tx)
    requires SameBalances(m, m') && tx.value < TWO_64
    ensures SameBalances(Transfer(m, shard, tx), Transfer(m', shard, tx)) && Met(m, shard, tx) == Met(m', shard, tx)
  {
    assert Funded(m, shard, tx) == Funded(m', shard, tx);
    SetSame(m, m', tx.fromAddr, (Balance(m, tx.fromAddr) + TWO_64 - tx.value) % TWO_64);
    AddedSame(Subtracted(m, tx.fromAddr, tx.value), Subtracted(m', tx.fromAddr, tx.value), tx.toAddr, tx.value);
  }

  lemma {:induction false} TransfersSame(m: Accounts, m': Accounts, shard: nat, txs: seq<Tx>)
    requires SameBalances(m, m') && Values(txs)
    ensures SameBalances(Transfers(m, shard, txs), Transfers(m', shard, txs))
        && MovedBy(m, shard, txs) == MovedBy(m', shard, txs)
  {
    if |txs| > 0 {
      var f := txs[..|txs| - 1];
      TransfersSame(m, m', shard, f);
      TransferSame(Transfers(m, shard, f), Transfers(m', shard, f), shard, txs[|txs| - 1]);
    }
  }

  /** Results agree exactly if the same accounts exist outside those that the block writes. */
  lemma ExecutedSame(m: Accounts, m': Accounts, shard: nat, chunks: seq<Chunk>, txs: seq<Tx>)
    requires SameBalances(m, m') && Values(txs)
    ensures Executed(m, shard, chunks, txs) == Executed(m', shard, chunks, txs)
       <==> m.Keys - Touched(m, shard, chunks, txs) == m'.Keys - Touched(m, shard, chunks, txs)
  {
    var i, i' := Inbound(m, shard, chunks), Inbound(m', shard, chunks);
    InboundSame(m, m', shard, chunks);
    TransfersSame(i, i', shard, txs);
    InboundKeys(m, shard, chunks);
    InboundKeys(m', shard, chunks);
    TransfersKeys(i, shard, txs);
    TransfersKeys(i', shard, txs);
    SameIfKeys(Transfers(i, shard, txs), Transfers(i', shard, txs));
    KeysOutside(m.Keys, m'.Keys, Touched(m, shard, chunks, txs));
    assert m.Keys + BroughtTo(shard, chunks) + MovedBy(i, shard, txs) == m.Keys + Touched(m, shard, chunks, txs);
    assert m'.Keys + BroughtTo(shard, chunks) + MovedBy(i, shard, txs) == m'.Keys + Touched(m, shard, chunks, txs);
  }

  lemma SameIfKeys(m: Accounts, m': Accounts)
    requires SameBalances(m, m')
    ensures m == m' <==> m.Keys == m'.Keys
  {
    if m.Keys == m'.Keys {
      forall a | a in m
        ensures m[a] == m'[a]
      {
        assert Balance(m, a) == Balance(m', a);
      }
    }
  }

  lemma KeysOutside(a: set<Address>, b: set<Address>, t: set<Address>)
    ensures a + t == b + t <==> a - t == b - t
  {
    if a - t == b - t {
      assert a + t == (a - t) + t && b + t == (b - t) + t;
    }
    if a + t == b + t {
      assert a - t == (a + t) - t && b - t == (b + t) - t;
    }
  }

  lemma {:induction false} GrantedKeys(m: Accounts, accounts: seq<Address>)
    ensures Granted(m, accounts).Keys == m.Keys + set a | a in accounts
  {
    if |accounts| > 0 {
      var f := accounts[..|accounts| - 1];
      GrantedKeys(m, f);
      assert accounts == f + [accounts[|accounts| - 1]];
    }
  }

  lemma {:induction false} GrantedSame(m: Accounts, m': Accounts, accounts: seq<Address>)
    requires SameBalances(m, m')
    ensures SameBalances(Granted(m, accounts), Granted(m', accounts))
  {
    if |accounts| > 0 {
      var f := accounts[..|accounts| - 1];
      GrantedSame(m, m', f);
      AddedSame(Granted(m, f), Granted(m', f), accounts[|accounts| - 1], GRANT);
    }
  }

  /** The accounts a block writes: the configured ones in the first block. */
  function Written(g: Config, m: Accounts, b: Block): set<Address>
    requires BlockOk(b)
  {
    if b.header.height == 0 then set a | a in g.accounts else Touched(m, g.shardId, b.inbound, b.txs)
  }

  lemma ResultSame(g: Config, m: Accounts, m': Accounts, b: Block)
    requires BlockOk(b) && SameBalances(m, m')
    ensures Result(g, m, b) == Result(g, m', b) <==> m.Keys - Written(g, m, b) == m'.Keys - Written(g, m, b)
  {
    if b.header.height == 0 {
      GrantedSame(m, m', g.accounts);
      GrantedKeys(m, g.accounts);
      GrantedKeys(m', g.accounts);
      SameIfKeys(Granted(m, g.accounts), Granted(m', g.accounts));
      KeysOutside(m.Keys, m'.Keys, Written(g, m, b));
    } else {
      ExecutedSame(m, m', g.shardId, b.inbound, b.txs);
    }
  }

  /**
    Equal balances are not quite enough for a validator to accept a leader's block: the state root
    also tells empty accounts from missing ones, so the two must agree about which accounts exist
    wherever the block does not write.
   */
  lemma AcceptedExactly(g: Config, m: Accounts, m': Accounts, latest: Option<Block>, headers: Headers, b: Block)
    requires ConfigOk(g) && BlockOk(b) && Builds(g, m, latest, b)
    requires InboundVerdict(headers, b.inbound).Accepted? && SameBalances(m, m')
    ensures Check(g, m', latest, headers, b) == Accepted
       <==> m.Keys - Written(g, m, b) == m'.Keys - Written(g, m, b)
  {
    var e, e' := Result(g, m, b), Result(g, m', b);
    ResultSame(g, m, m', b);
    if IsStateRoot(b.header.stateRoot, e') {
      StateRootsAgree(b.header.stateRoot, e, b.header.stateRoot, e');
    }
  }

  /** A block without transactions, on top of prev, in a shard without accounts. */
  ghost function EmptyBlock(g: Config, prev: Block): (b: Block)
    requires ConfigOk(g)
    ensures BlockOk(b) && InboundVerdict(map[], b.inbound).Accepted?
  {
    var txs: seq<Tx> := [];
    Block(Header(g.shardId, prev.header.height + 1, HeaderHash(prev.header), T.RootHash(T.Nil),
                 TxRootOf(txs, g.shardNum), [], 0),
          txs, [])
  }

  /** The block of a leader without accounts is rejected where one empty account exists. */
  lemma EmptyAccountRejected(g: Config, prev: Block)
    requires ConfigOk(g)
    ensures var m: Accounts, m': Accounts := map[], map[[1] := 0];
            var b := EmptyBlock(g, prev);
            && SameBalances(m, m') && Builds(g, m, Some(prev), b)
            && Check(g, m, Some(prev), map[], b) == Accepted && Check(g, m', Some(prev), map[], b) == Rejected
  {
    var m: Accounts, m': Accounts := map[], map[[1] := 0];
    var b := EmptyBlock(g, prev);
    assert S.Encoded(m) == map[];
    assert S.Keeps(T.Nil, m);
    assert IsStateRoot(b.header.stateRoot, m);
    assert Builds(g, m, Some(prev), b);
    AcceptedExactly(g, m, m', Some(prev), map[], b);
    assert Written(g, m, b) == {};
    assert [1] in m'.Keys - Written(g, m, b) && [1] !in m.Keys;
    assert InRange(b.txs, g.shardNum);
  }
}
