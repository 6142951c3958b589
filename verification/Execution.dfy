/**
  What a block does to the accounts of its shard, and what that means for the value in the system:
  transfers inside a shard move value, outbound ones take it out, inbound chunks bring it in.
 */
module Execution {
  import opened Uints
  import opened Journal
  import opened Chunks

  // ----- execution

  /** Values are 64-bit integers. */
  predicate Values(txs: seq<Tx>) {
    forall i :: 0 <= i < |txs| ==> txs[i].value < TWO_64
  }

  function Added(m: Accounts, a: Address, v: nat): Accounts {
    m[a := (Balance(m, a) + v) % TWO_64]
  }

  function Subtracted(m: Accounts, a: Address, v: nat): Accounts
    requires v < TWO_64
  {
    m[a := (Balance(m, a) + TWO_64 - v) % TWO_64]
  }

  predicate IsInbound(shard: nat, tx: Tx) {
    tx.fromShard != shard && tx.toShard == shard
  }

  function Credit(m: Accounts, shard: nat, tx: Tx): Accounts {
    if IsInbound(shard, tx) then Added(m, tx.toAddr, tx.value) else m
  }

  function Credits(m: Accounts, shard: nat, txs: seq<Tx>): Accounts {
    if |txs| == 0 then m else Credit(Credits(m, shard, txs[..|txs| - 1]), shard, txs[|txs| - 1])
  }

  function Inbound(m: Accounts, shard: nat, chunks: seq<Chunk>): Accounts {
    if |chunks| == 0 then m else Credits(Inbound(m, shard, chunks[..|chunks| - 1]), shard, chunks[|chunks| - 1].txs)
  }

  predicate Funded(m: Accounts, shard: nat, tx: Tx) {
    tx.fromShard == shard && Balance(m, tx.fromAddr) >= tx.value
  }

  /** Transactions of other shards and transactions without funds are skipped. */
  function Transfer(m: Accounts, shard: nat, tx: Tx): Accounts
    requires tx.value < TWO_64
  {
    if !Funded(m, shard, tx) then m
    else
      var d := Subtracted(m, tx.fromAddr, tx.value);
      if tx.toShard == shard then Added(d, tx.toAddr, tx.value) else d
  }

  function Transfers(m: Accounts, shard: nat, txs: seq<Tx>): Accounts
    requires Values(txs)
  {
    if |txs| == 0 then m else Transfer(Transfers(m, shard, txs[..|txs| - 1]), shard, txs[|txs| - 1])
  }

  function Executed(m: Accounts, shard: nat, chunks: seq<Chunk>, txs: seq<Tx>): Accounts
    requires Values(txs)
  {
    Transfers(Inbound(m, shard, chunks), shard, txs)
  }

  lemma {:induction false} CreditsBounded(m: Accounts, shard: nat, txs: seq<Tx>)
    requires Bounded(m)
    ensures Bounded(Credits(m, shard, txs))
  {
    if |txs| > 0 {
      CreditsBounded(m, shard, txs[..|txs| - 1]);
    }
  }

  lemma {:induction false} InboundBounded(m: Accounts, shard: nat, chunks: seq<Chunk>)
    requires Bounded(m)
    ensures Bounded(Inbound(m, shard, chunks))
  {
    if |chunks| > 0 {
      InboundBounded(m, shard, chunks[..|chunks| - 1]);
      CreditsBounded(Inbound(m, shard, chunks[..|chunks| - 1]), shard, chunks[|chunks| - 1].txs);
    }
  }

  lemma {:induction false} TransfersBounded(m: Accounts, shard: nat, txs: seq<Tx>)
    requires Bounded(m) && Values(txs)
    ensures Bounded(Transfers(m, shard, txs))
  {
    if |txs| > 0 {
      TransfersBounded(m, shard, txs[..|txs| - 1]);
    }
  }

  // ----- sums

  ghost function Total<K>(m: map<K, nat>): nat {
    if m.Keys == {} then 0 else var k :| k in m.Keys; m[k] + Total(m - {k})
  }

  lemma {:induction false} TotalWithout<K>(m: map<K, nat>, k: K)
    requires k in m
    ensures Total(m) == m[k] + Total(m - {k})
    decreases |m|
  {
    var j :| j in m.Keys && Total(m) == m[j] + Total(m - {j});
    if j != k {
      TotalWithout(m - {j}, k);
      TotalWithout(m - {k}, j);
      assert m - {j} - {k} == m - {k} - {j};
    }
  }

  lemma TotalSet<K>(m: map<K, nat>, k: K, v: nat)
    ensures Total(m[k := v]) + (if k in m then m[k] else 0) == Total(m) + v
  {
    TotalWithout(m[k := v], k);
    assert m[k := v] - {k} == m - {k};
    if k in m {
      TotalWithout(m, k);
    } else {
      assert m - {k} == m;
    }
  }

  // ----- what one block does to the total

  /** What a credit loses when it wraps around. */
  function Overflow(balance: nat, v: nat): nat {
    if balance + v < TWO_64 then 0 else TWO_64
  }

  /** Lost by the credits of a chunk. */
  function CreditsLost(m: Accounts, shard: nat, txs: seq<Tx>): nat {
    if |txs| == 0 then 0
    else
      var f, tx := txs[..|txs| - 1], txs[|txs| - 1];
      CreditsLost(m, shard, f)
          + if IsInbound(shard, tx) then Overflow(Balance(Credits(m, shard, f), tx.toAddr), tx.value) else 0
  }

  function InboundLost(m: Accounts, shard: nat, chunks: seq<Chunk>): nat {
    if |chunks| == 0 then 0
    else
      var f := chunks[..|chunks| - 1];
      InboundLost(m, shard, f) + CreditsLost(Inbound(m, shard, f), shard, chunks[|chunks| - 1].txs)
  }

  /** Lost by a transfer inside the shard. */
  function TransferLost(m: Accounts, shard: nat, tx: Tx): nat
    requires tx.value < TWO_64
  {
    if Funded(m, shard, tx) && tx.toShard == shard
    then Overflow(Balance(Subtracted(m, tx.fromAddr, tx.value), tx.toAddr), tx.value) else 0
  }

  function TransfersLost(m: Accounts, shard: nat, txs: seq<Tx>): nat
    requires Values(txs)
  {
    if |txs| == 0 then 0
    else
      var f := txs[..|txs| - 1];
      TransfersLost(m, shard, f) + TransferLost(Transfers(m, shard, f), shard, txs[|txs| - 1])
  }

  /** Two to the 64 for each balance that overflows in a block. */
  function Lost(m: Accounts, shard: nat, chunks: seq<Chunk>, txs: seq<Tx>): nat
    requires Values(txs)
  {
    InboundLost(m, shard, chunks) + TransfersLost(Inbound(m, shard, chunks), shard, txs)
  }

  /** Value that a list of transactions brings to a shard. */
  function Brought(shard: nat, txs: seq<Tx>): nat {
    if |txs| == 0 then 0
    else Brought(shard, txs[..|txs| - 1]) + if IsInbound(shard, txs[|txs| - 1]) then txs[|txs| - 1].value else 0
  }

  function BroughtIn(shard: nat, chunks: seq<Chunk>): nat {
    if |chunks| == 0 then 0 else BroughtIn(shard, chunks[..|chunks| - 1]) + Brought(shard, chunks[|chunks| - 1].txs)
  }

  /** Funded value that leaves the shard. */
  function TakenOut(m: Accounts, shard: nat, txs: seq<Tx>): nat
    requires Values(txs)
  {
    if |txs| == 0 then 0
    else
      var before, tx := Transfers(m, shard, txs[..|txs| - 1]), txs[|txs| - 1];
      TakenOut(m, shard, txs[..|txs| - 1]) + if Funded(before, shard, tx) && tx.toShard != shard then tx.value else 0
  }

  lemma AddedTotal(m: Accounts, a: Address, v: nat)
    requires Bounded(m) && v < TWO_64
    ensures Total(Added(m, a, v)) + Overflow(Balance(m, a), v) == Total(m) + v
  {
    TotalSet(m, a, (Balance(m, a) + v) % TWO_64);
  }

  /** A funded debit does not wrap around. */
  lemma SubtractedTotal(m: Accounts, a: Address, v: nat)
    requires Bounded(m) && v <= Balance(m, a) && v < TWO_64
    ensures Balance(Subtracted(m, a, v), a) == Balance(m, a) - v
    ensures Total(Subtracted(m, a, v)) + v == Total(m)
  {
    TotalSet(m, a, Balance(m, a) - v);
  }

  lemma {:induction false} CreditsTotal(m: Accounts, shard: nat, txs: seq<Tx>)
    requires Bounded(m) && Values(txs)
    ensures Total(Credits(m, shard, txs)) + CreditsLost(m, shard, txs) == Total(m) + Brought(shard, txs)
  {
    if |txs| > 0 {
      var f, tx := txs[..|txs| - 1], txs[|txs| - 1];
      CreditsTotal(m, shard, f);
      CreditsBounded(m, shard, f);
      if IsInbound(shard, tx) {
        AddedTotal(Credits(m, shard, f), tx.toAddr, tx.value);
      }
    }
  }

  lemma {:induction false} InboundTotal(m: Accounts, shard: nat, chunks: seq<Chunk>)
    requires Bounded(m) && forall i :: 0 <= i < |chunks| ==> TxsOk(chunks[i].txs)
    ensures Total(Inbound(m, shard, chunks)) + InboundLost(m, shard, chunks) == Total(m) + BroughtIn(shard, chunks)
  {
    if |chunks| > 0 {
      var f := chunks[..|chunks| - 1];
      InboundTotal(m, shard, f);
      InboundBounded(m, shard, f);
      CreditsTotal(Inbound(m, shard, f), shard, chunks[|chunks| - 1].txs);
    }
  }

  lemma TransferTotal(m: Accounts, shard: nat, tx: Tx)
    requires Bounded(m) && tx.value < TWO_64
    ensures Total(Transfer(m, shard, tx)) + TransferLost(m, shard, tx)
          + (if Funded(m, shard, tx) && tx.toShard != shard then tx.value else 0) == Total(m)
  {
    if Funded(m, shard, tx) {
      SubtractedTotal(m, tx.fromAddr, tx.value);
      if tx.toShard == shard {
        AddedTotal(Subtracted(m, tx.fromAddr, tx.value), tx.toAddr, tx.value);
      }
    }
  }

  lemma {:induction false} TransfersTotal(m: Accounts, shard: nat, txs: seq<Tx>)
    requires Bounded(m) && Values(txs)
    ensures Total(Transfers(m, shard, txs)) + TransfersLost(m, shard, txs) + TakenOut(m, shard, txs) == Total(m)
  {
    if |txs| > 0 {
      var f := txs[..|txs| - 1];
      TransfersTotal(m, shard, f);
      TransfersBounded(m, shard, f);
      TransferTotal(Transfers(m, shard, f), shard, txs[|txs| - 1]);
    }
  }

  /**
    A block changes its shard's total by what comes in minus the funded value that goes out, and
    minus two to the 64 for each balance that overflows.
   */
  lemma BlockTotal(m: Accounts, shard: nat, chunks: seq<Chunk>, txs: seq<Tx>)
    requires Bounded(m) && Values(txs)
    requires forall i :: 0 <= i < |chunks| ==> TxsOk(chunks[i].txs)
    ensures Total(Executed(m, shard, chunks, txs)) + TakenOut(Inbound(m, shard, chunks), shard, txs)
          + Lost(m, shard, chunks, txs) == Total(m) + BroughtIn(shard, chunks)
  {
    InboundTotal(m, shard, chunks);
    InboundBounded(m, shard, chunks);
    TransfersTotal(Inbound(m, shard, chunks), shard, txs);
  }

  // ----- when nothing overflows

  lemma {:induction false} CreditsLostUnit(m: Accounts, shard: nat, txs: seq<Tx>)
    ensures CreditsLost(m, shard, txs) == 0 || CreditsLost(m, shard, txs) >= TWO_64
  {
    if |txs| > 0 {
      CreditsLostUnit(m, shard, txs[..|txs| - 1]);
    }
  }

  lemma {:induction false} InboundLostUnit(m: Accounts, shard: nat, chunks: seq<Chunk>)
    ensures InboundLost(m, shard, chunks) == 0 || InboundLost(m, shard, chunks) >= TWO_64
  {
    if |chunks| > 0 {
      InboundLostUnit(m, shard, chunks[..|chunks| - 1]);
      CreditsLostUnit(Inbound(m, shard, chunks[..|chunks| - 1]), shard, chunks[|chunks| - 1].txs);
    }
  }

  lemma {:induction false} TransfersLostUnit(m: Accounts, shard: nat, txs: seq<Tx>)
    requires Values(txs)
    ensures TransfersLost(m, shard, txs) == 0 || TransfersLost(m, shard, txs) >= TWO_64
  {
    if |txs| > 0 {
      TransfersLostUnit(m, shard, txs[..|txs| - 1]);
    }
  }

  /** No balance overflows as long as the shard's total and what comes in are below two to the 64. */
  lemma NothingLost(m: Accounts, shard: nat, chunks: seq<Chunk>, txs: seq<Tx>)
    requires Bounded(m) && Values(txs)
    requires forall i :: 0 <= i < |chunks| ==> TxsOk(chunks[i].txs)
    requires Total(m) + BroughtIn(shard, chunks) < TWO_64
    ensures Lost(m, shard, chunks, txs) == 0
  {
    BlockTotal(m, shard, chunks, txs);
    InboundLostUnit(m, shard, chunks);
    TransfersLostUnit(Inbound(m, shard, chunks), shard, txs);
  }
}
