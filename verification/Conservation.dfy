/**
  Value over all shards: balances plus what is on its way in chunks that have not been executed.
  A block may execute any chunks that the check accepts. The check reads the hash fields of the
  transactions and nothing else, takes headers as they come and keeps no record of what was executed,
  and outbound chunks also take unpaid transactions; so each block changes the sum by an amount
  stated here exactly, and keeps it under a guard none of whose parts can be left out.
 */
module Conservation {
  import opened Encoding
  import opened Rlp
  import opened Uints
  import opened Seal
  import opened Journal
  import opened Chunks
  import opened Execution
  import opened Blocks
  import NodeCache
  import R = TrieRuns
  import T = Trees

  /** Whether a transaction in a block of the shard is sent away and credited where it arrives. */
  predicate Leaves(shard: nat, tx: Tx) {
    tx.toShard != shard && tx.fromShard != tx.toShard
  }

  function Sent(shard: nat, txs: seq<Tx>): nat {
    if |txs| == 0 then 0
    else Sent(shard, txs[..|txs| - 1]) + if Leaves(shard, txs[|txs| - 1]) then txs[|txs| - 1].value else 0
  }

  /** Every transaction that leaves with value was paid for when its turn came. */
  ghost predicate PaidFor(m: Accounts, shard: nat, txs: seq<Tx>)
    requires Values(txs)
  {
    |txs| == 0 ||
    (&& PaidFor(m, shard, txs[..|txs| - 1])
     && (Leaves(shard, txs[|txs| - 1]) && txs[|txs| - 1].value > 0 ==>
         Funded(Transfers(m, shard, txs[..|txs| - 1]), shard, txs[|txs| - 1])))
  }

  /** No block takes out more than it sends, and it takes out as much exactly if all is paid for. */
  lemma {:induction false} PaidForExact(m: Accounts, shard: nat, txs: seq<Tx>)
    requires Values(txs)
    ensures TakenOut(m, shard, txs) <= Sent(shard, txs)
    ensures TakenOut(m, shard, txs) == Sent(shard, txs) <==> PaidFor(m, shard, txs)
  {
    if |txs| > 0 {
      PaidForExact(m, shard, txs[..|txs| - 1]);
    }
  }

  // ----- chunks on their way

  /** A chunk that was sent and has not been used: of which block, to which shard. */
  datatype Parcel = Parcel(hash: Blob, to: nat)

  /** The blocks of all shards, by the hashes of their headers. */
  type Ledger = map<Blob, Block>

  ghost predicate Known(blocks: Ledger, ps: set<Parcel>) {
    forall p :: p in ps ==> p.hash in blocks
  }

  function Worth(blocks: Ledger, p: Parcel): nat
    requires p.hash in blocks
  {
    Brought(p.to, For(blocks[p.hash].txs, p.to))
  }

  ghost function Worths(blocks: Ledger, ps: set<Parcel>): map<Parcel, nat>
    requires Known(blocks, ps)
  {
    map p | p in ps :: Worth(blocks, p)
  }

  ghost function Value(blocks: Ledger, ps: set<Parcel>): nat
    requires Known(blocks, ps)
  {
    Total(Worths(blocks, ps))
  }

  lemma ValueAdd(blocks: Ledger, ps: set<Parcel>, p: Parcel)
    requires Known(blocks, ps) && p !in ps && p.hash in blocks
    ensures Value(blocks, ps + {p}) == Value(blocks, ps) + Worth(blocks, p)
  {
    TotalSet(Worths(blocks, ps), p, Worth(blocks, p));
    assert Worths(blocks, ps + {p}) == Worths(blocks, ps)[p := Worth(blocks, p)];
  }

  lemma ValueJoinOne(blocks: Ledger, ps: set<Parcel>, qs: set<Parcel>, q: Parcel)
    requires Known(blocks, ps) && Known(blocks, qs) && q.hash in blocks && q !in ps && q !in qs
    requires Value(blocks, ps + qs) == Value(blocks, ps) + Value(blocks, qs)
    ensures Value(blocks, ps + (qs + {q})) == Value(blocks, ps) + Value(blocks, qs + {q})
  {
    assert ps + (qs + {q}) == ps + qs + {q};
    ValueAdd(blocks, ps + qs, q);
    ValueAdd(blocks, qs, q);
  }

  lemma {:induction false} ValueJoin(blocks: Ledger, ps: set<Parcel>, qs: set<Parcel>)
    requires Known(blocks, ps) && Known(blocks, qs) && ps !! qs
    ensures Value(blocks, ps + qs) == Value(blocks, ps) + Value(blocks, qs)
    decreases |qs|
  {
    if qs == {} {
      assert ps + qs == ps;
    } else {
      var q :| q in qs;
      var rest := qs - {q};
      assert rest + {q} == qs;
      ValueJoin(blocks, ps, rest);
      ValueJoinOne(blocks, ps, rest, q);
    }
  }

  lemma ValuePart(blocks: Ledger, ps: set<Parcel>, part: set<Parcel>)
    requires Known(blocks, ps) && part <= ps
    ensures Known(blocks, part) && Value(blocks, part) <= Value(blocks, ps)
  {
    ValueJoin(blocks, ps - part, part);
    assert ps - part + part == ps;
  }

  lemma ValueKept(blocks: Ledger, ps: set<Parcel>, h: Blob, b: Block)
    requires Known(blocks, ps) && h !in blocks
    ensures Known(blocks[h := b], ps) && Value(blocks[h := b], ps) == Value(blocks, ps)
  {
    assert Worths(blocks[h := b], ps) == Worths(blocks, ps);
  }

  /** A block's parcels: one to each of the first k shards except its own. */
  ghost function Outgoing(h: Blob, shard: nat, k: nat): set<Parcel> {
    if k == 0 then {}
    else Outgoing(h, shard, k - 1) + if FIRST_SHARD + k - 1 == shard then {} else {Parcel(h, FIRST_SHARD + k - 1)}
  }

  lemma {:induction false} OutgoingOf(h: Blob, shard: nat, k: nat)
    ensures forall p :: p in Outgoing(h, shard, k) ==> p.hash == h && p.to < FIRST_SHARD + k
  {
    if k > 0 {
      OutgoingOf(h, shard, k - 1);
    }
  }

  /** Value sent to the first k shards. */
  function SentTo(shard: nat, txs: seq<Tx>, k: nat): nat {
    if k == 0 then 0
    else
      var d := FIRST_SHARD + k - 1;
      SentTo(shard, txs, k - 1) + if d == shard then 0 else Brought(d, For(txs, d))
  }

  lemma OutgoingOne(blocks: Ledger, h: Blob, shard: nat, d: nat, ps: set<Parcel>)
    requires h in blocks && Known(blocks, ps) && Parcel(h, d) !in ps
    ensures var qs := ps + if d == shard then {} else {Parcel(h, d)};
            && Known(blocks, qs)
            && Value(blocks, qs) == Value(blocks, ps) + if d == shard then 0 else Brought(d, For(blocks[h].txs, d))
  {
    if d == shard {
      assert ps + {} == ps;
    } else {
      ValueAdd(blocks, ps, Parcel(h, d));
    }
  }

  lemma OutgoingUnfold(h: Blob, shard: nat, k: nat, d: nat)
    requires k > 0 && d == FIRST_SHARD + k - 1
    ensures Outgoing(h, shard, k) == Outgoing(h, shard, k - 1) + if d == shard then {} else {Parcel(h, d)}
    ensures Parcel(h, d) !in Outgoing(h, shard, k - 1)
  {
    OutgoingOf(h, shard, k - 1);
  }

  lemma OutgoingStep(blocks: Ledger, h: Blob, shard: nat, k: nat, d: nat)
    requires k > 0 && d == FIRST_SHARD + k - 1 && h in blocks && Known(blocks, Outgoing(h, shard, k - 1))
    ensures Known(blocks, Outgoing(h, shard, k))
    ensures Value(blocks, Outgoing(h, shard, k)) ==
        Value(blocks, Outgoing(h, shard, k - 1)) + if d == shard then 0 else Brought(d, For(blocks[h].txs, d))
  {
    OutgoingUnfold(h, shard, k, d);
    OutgoingOne(blocks, h, shard, d, Outgoing(h, shard, k - 1));
  }

  lemma {:induction false} OutgoingValue(blocks: Ledger, h: Blob, shard: nat, k: nat)
    requires h in blocks
    ensures Known(blocks, Outgoing(h, shard, k))
    ensures Value(blocks, Outgoing(h, shard, k)) == SentTo(shard, blocks[h].txs, k)
  {
    if k > 0 {
      OutgoingValue(blocks, h, shard, k - 1);
      OutgoingStep(blocks, h, shard, k, FIRST_SHARD + k - 1);
      SentToUnfold(shard, blocks[h].txs, k, FIRST_SHARD + k - 1);
    }
  }

  lemma ForBrought(txs: seq<Tx>, d: nat)
    requires |txs| > 0
    ensures var f, tx := txs[..|txs| - 1], txs[|txs| - 1];
            Brought(d, For(txs, d)) == Brought(d, For(f, d)) + if tx.toShard == d && tx.fromShard != d then tx.value
                else 0
  {
    var f, tx := txs[..|txs| - 1], txs[|txs| - 1];
    var c := For(txs, d);
    if tx.toShard == d {
      assert c == For(f, d) + [tx] && c[..|c| - 1] == For(f, d);
    } else {
      assert c == For(f, d);
    }
  }

  lemma SentToUnfold(shard: nat, txs: seq<Tx>, k: nat, d: nat)
    requires k > 0 && d == FIRST_SHARD + k - 1
    ensures SentTo(shard, txs, k) == SentTo(shard, txs, k - 1) + if d == shard then 0 else Brought(d, For(txs, d))
  {
  }

  /** One more transaction adds to the chunk of its own destination only. */
  lemma {:induction false} SentToSnoc(shard: nat, txs: seq<Tx>, k: nat)
    requires |txs| > 0
    ensures var f, tx := txs[..|txs| - 1], txs[|txs| - 1];
            SentTo(shard, txs, k) == SentTo(shard, f, k) + if Leaves(shard, tx)
                && FIRST_SHARD <= tx.toShard < FIRST_SHARD + k then tx.value else 0
  {
    if k > 0 {
      var f, d := txs[..|txs| - 1], FIRST_SHARD + k - 1;
      SentToSnoc(shard, txs, k - 1);
      ForBrought(txs, d);
      SentToUnfold(shard, txs, k, d);
      SentToUnfold(shard, f, k, d);
    }
  }

  lemma {:induction false} SentToNone(shard: nat, k: nat)
    ensures SentTo(shard, [], k) == 0
  {
    if k > 0 {
      SentToNone(shard, k - 1);
    }
  }

  /** Cut into chunks, the value sent is neither lost nor doubled. */
  lemma {:induction false} SentToAll(shard: nat, txs: seq<Tx>, n: nat)
    requires InRange(txs, n)
    ensures SentTo(shard, txs, n) == Sent(shard, txs)
  {
    if |txs| == 0 {
      assert txs == [];
      SentToNone(shard, n);
    } else {
      SentToAll(shard, txs[..|txs| - 1], n);
      SentToSnoc(shard, txs, n);
    }
  }

  // ----- all shards

  datatype World = World(shards: map<nat, Accounts>, blocks: Ledger, flight: set<Parcel>)

  /** One block of one shard, and the headers known there. */
  datatype Step = Step(block: Block, headers: Headers)

  function Shard(e: Step): nat {
    e.block.header.shardId
  }

  function Hash(e: Step): Blob {
    HeaderHash(e.block.header)
  }

  /** The header commits to the block's own transactions. */
  ghost predicate Sealed(b: Block, n: nat) {
    && n < TWO_64 - FIRST_SHARD && TxsOk(b.txs) && InRange(b.txs, n)
    && b.header.txRoot == TxRootOf(b.txs, n)
  }

  ghost predicate WorldOk(w: World, n: nat) {
    && Known(w.blocks, w.flight)
    && (forall s :: s in w.shards ==> Bounded(w.shards[s]))
    && forall h :: h in w.blocks ==> Sealed(w.blocks[h], n) && h == HeaderHash(w.blocks[h].header)
  }

  /** A new block whose inbound chunks, whatever they are, pass the check against the headers known. */
  ghost predicate Can(w: World, n: nat, e: Step) {
    && Shard(e) in w.shards && BlockOk(e.block) && Sealed(e.block, n) && Hash(e) !in w.blocks
    && InboundVerdict(e.headers, e.block.inbound).Accepted?
  }

  /** Every block that validators accept is such a step. */
  lemma AcceptedCan(g: Config, w: World, latest: Option<Block>, e: Step)
    requires ConfigOk(g) && BlockOk(e.block) && e.block.header.height > 0
    requires Shard(e) == g.shardId && g.shardId in w.shards && Hash(e) !in w.blocks
    requires Check(g, w.shards[g.shardId], latest, e.headers, e.block) == Accepted
    ensures Can(w, g.shardNum, e)
    ensures IsStateRoot(e.block.header.stateRoot, Executed(w.shards[Shard(e)], Shard(e), e.block.inbound, e.block.txs))
  {
  }

  predicate Own(shard: nat, c: Chunk) {
    |c.txs| > 0 && c.txs[0].toShard == shard
  }

  /** The parcels that chunks for the shard claim to be. */
  function Claimed(shard: nat, chunks: seq<Chunk>): set<Parcel> {
    if |chunks| == 0 then {}
    else
      var c := chunks[|chunks| - 1];
      Claimed(shard, chunks[..|chunks| - 1])
          + if Own(shard, c) then {Parcel(c.blockHash, shard)} else {}
  }

  ghost function UsedUp(w: World, e: Step): set<Parcel> {
    Claimed(Shard(e), e.block.inbound) * w.flight
  }

  ghost function Next(w: World, n: nat, e: Step): World
    requires Can(w, n, e)
  {
    var s := Shard(e);
    World(w.shards[s := Executed(w.shards[s], s, e.block.inbound, e.block.txs)],
          w.blocks[Hash(e) := e.block],
          w.flight - UsedUp(w, e) + Outgoing(Hash(e), s, n))
  }

  lemma NextOk(w: World, n: nat, e: Step)
    requires WorldOk(w, n) && Can(w, n, e)
    ensures WorldOk(Next(w, n, e), n)
  {
    var s := Shard(e);
    OutgoingOf(Hash(e), s, n);
    InboundBounded(w.shards[s], s, e.block.inbound);
    TransfersBounded(Inbound(w.shards[s], s, e.block.inbound), s, e.block.txs);
  }

  ghost function Totals(shards: map<nat, Accounts>): map<nat, nat> {
    map s | s in shards :: Total(shards[s])
  }

  ghost function Grand(w: World): nat
    requires Known(w.blocks, w.flight)
  {
    Total(Totals(w.shards)) + Value(w.blocks, w.flight)
  }

  /** What a block takes from its shard for transactions that leave. */
  ghost function Paid(w: World, n: nat, e: Step): nat
    requires Can(w, n, e)
  {
    TakenOut(Inbound(w.shards[Shard(e)], Shard(e), e.block.inbound), Shard(e), e.block.txs)
  }

  /** What is lost to balances that overflow. */
  ghost function Wrapped(w: World, n: nat, e: Step): nat
    requires Can(w, n, e)
  {
    Lost(w.shards[Shard(e)], Shard(e), e.block.inbound, e.block.txs)
  }

  function Credited(e: Step): nat {
    BroughtIn(Shard(e), e.block.inbound)
  }

  lemma TotalsSet(shards: map<nat, Accounts>, s: nat, m: Accounts)
    requires s in shards
    ensures Total(Totals(shards[s := m])) + Total(shards[s]) == Total(Totals(shards)) + Total(m)
  {
    TotalSet(Totals(shards), s, Total(m));
    assert Totals(shards[s := m]) == Totals(shards)[s := Total(m)];
  }

  lemma FlightTotal(blocks: Ledger, flight: set<Parcel>, used: set<Parcel>, h: Blob, b: Block, n: nat)
    requires Known(blocks, flight) && used <= flight && h !in blocks && InRange(b.txs, n)
    ensures var flight' := flight - used + Outgoing(h, b.header.shardId, n);
            && Known(blocks[h := b], flight') && Known(blocks, used)
            && Value(blocks[h := b], flight') + Value(blocks, used) ==
                Value(blocks, flight) + Sent(b.header.shardId, b.txs)
  {
    var s, bs := b.header.shardId, blocks[h := b];
    ValueJoin(blocks, flight - used, used);
    assert flight - used + used == flight;
    ValueKept(blocks, flight - used, h, b);
    OutgoingOf(h, s, n);
    OutgoingValue(bs, h, s, n);
    ValueJoin(bs, flight - used, Outgoing(h, s, n));
    SentToAll(s, b.txs, n);
  }

  /**
    One block changes the sum over the system by what it sends unpaid, plus what its chunks credit
    beyond the worth of the parcels they use up, minus what overflows, and by nothing else.
   */
  lemma StepTotal(w: World, n: nat, e: Step)
    requires WorldOk(w, n) && Can(w, n, e)
    ensures WorldOk(Next(w, n, e), n)
    ensures Grand(Next(w, n, e)) + Paid(w, n, e) + Value(w.blocks, UsedUp(w, e)) + Wrapped(w, n, e) ==
            Grand(w) + Sent(Shard(e), e.block.txs) + Credited(e)
  {
    var m, s := w.shards[Shard(e)], Shard(e);
    NextOk(w, n, e);
    BlockTotal(m, s, e.block.inbound, e.block.txs);
    TotalsSet(w.shards, s, Executed(m, s, e.block.inbound, e.block.txs));
    FlightTotal(w.blocks, w.flight, UsedUp(w, e), Hash(e), e.block, n);
  }

  ghost predicate AllPaid(w: World, n: nat, e: Step)
    requires Can(w, n, e)
  {
    PaidFor(Inbound(w.shards[Shard(e)], Shard(e), e.block.inbound), Shard(e), e.block.txs)
  }

  // ----- chunks that are what was sent

  /** The chunk has the transactions that its block sent to its first destination. */
  ghost predicate Unaltered(blocks: Ledger, c: Chunk) {
    |c.txs| > 0 && c.blockHash in blocks && c.txs == For(blocks[c.blockHash].txs, c.txs[0].toShard)
  }

  /** Chunks for the shard are different parcels in flight. */
  ghost predicate Once(flight: set<Parcel>, shard: nat, chunks: seq<Chunk>) {
    && (forall i :: 0 <= i < |chunks| && Own(shard, chunks[i]) ==> Parcel(chunks[i].blockHash, shard) in flight)
    && forall i, j :: 0 <= i < j < |chunks| && Own(shard, chunks[i]) && Own(shard, chunks[j]) ==>
         chunks[i].blockHash != chunks[j].blockHash
  }

  ghost predicate AllUnaltered(blocks: Ledger, chunks: seq<Chunk>) {
    forall i :: 0 <= i < |chunks| ==> Unaltered(blocks, chunks[i])
  }

  lemma {:induction false} ClaimedBy(shard: nat, chunks: seq<Chunk>, p: Parcel)
    requires p in Claimed(shard, chunks)
    ensures exists i :: 0 <= i < |chunks| && Own(shard, chunks[i]) && p == Parcel(chunks[i].blockHash, shard)
  {
    if p in Claimed(shard, chunks[..|chunks| - 1]) {
      ClaimedBy(shard, chunks[..|chunks| - 1], p);
    }
  }

  lemma {:induction false} BroughtElsewhere(shard: nat, txs: seq<Tx>)
    requires forall i :: 0 <= i < |txs| ==> txs[i].toShard != shard
    ensures Brought(shard, txs) == 0
  {
    if |txs| > 0 {
      BroughtElsewhere(shard, txs[..|txs| - 1]);
    }
  }

  /** Every chunk that brings value to the shard is a parcel in flight, and no chunk before it is the same. */
  ghost predicate OnceEach(w: World, shard: nat, chunks: seq<Chunk>)
    requires AllUnaltered(w.blocks, chunks)
  {
    |chunks| == 0 ||
    (&& OnceEach(w, shard, chunks[..|chunks| - 1])
     && var p := Parcel(chunks[|chunks| - 1].blockHash, shard);
        Own(shard, chunks[|chunks| - 1]) && Worth(w.blocks, p) > 0 ==>
          p in w.flight && p !in Claimed(shard, chunks[..|chunks| - 1]))
  }

  lemma UnalteredBrings(blocks: Ledger, shard: nat, c: Chunk)
    requires Unaltered(blocks, c) && TxsOk(blocks[c.blockHash].txs)
    ensures Brought(shard, c.txs) == if Own(shard, c) then Worth(blocks, Parcel(c.blockHash, shard)) else 0
  {
    if !Own(shard, c) {
      ForOk(blocks[c.blockHash].txs, c.txs[0].toShard);
      BroughtElsewhere(shard, c.txs);
    }
  }

  /** One more claim uses a parcel up if it is in flight and was not claimed before. */
  lemma ClaimOne(blocks: Ledger, flight: set<Parcel>, claimed: set<Parcel>, p: Parcel)
    requires Known(blocks, flight) && p.hash in blocks
    ensures Value(blocks, (claimed + {p}) * flight) ==
        Value(blocks, claimed * flight) + if p in flight && p !in claimed then Worth(blocks, p) else 0
  {
    if p in flight && p !in claimed {
      assert (claimed + {p}) * flight == claimed * flight + {p};
      ValueAdd(blocks, claimed * flight, p);
    } else {
      assert (claimed + {p}) * flight == claimed * flight;
    }
  }

  lemma ClaimedUnfold(shard: nat, chunks: seq<Chunk>, c: Chunk)
    requires |chunks| > 0 && c == chunks[|chunks| - 1]
    ensures var f := Claimed(shard, chunks[..|chunks| - 1]);
            Claimed(shard, chunks) == if Own(shard, c) then f + {Parcel(c.blockHash, shard)} else f
  {
  }

  /** Unaltered chunks credit no less than the parcels they use up are worth, and as much exactly if each comes once. */
  lemma {:induction false} ClaimedExact(w: World, n: nat, shard: nat, chunks: seq<Chunk>)
    requires WorldOk(w, n) && AllUnaltered(w.blocks, chunks)
    ensures BroughtIn(shard, chunks) >= Value(w.blocks, Claimed(shard, chunks) * w.flight)
    ensures BroughtIn(shard, chunks) == Value(w.blocks, Claimed(shard, chunks) * w.flight)
       <==> OnceEach(w, shard, chunks)
  {
    if |chunks| > 0 {
      var f, c := chunks[..|chunks| - 1], chunks[|chunks| - 1];
      ClaimedExact(w, n, shard, f);
      assert Unaltered(w.blocks, c);
      UnalteredBrings(w.blocks, shard, c);
      ClaimedUnfold(shard, chunks, c);
      ClaimOne(w.blocks, w.flight, Claimed(shard, f), Parcel(c.blockHash, shard));
    }
  }

  lemma {:induction false} OnceIsEach(w: World, shard: nat, chunks: seq<Chunk>)
    requires AllUnaltered(w.blocks, chunks) && Once(w.flight, shard, chunks)
    ensures OnceEach(w, shard, chunks)
  {
    if |chunks| > 0 {
      var f, c := chunks[..|chunks| - 1], chunks[|chunks| - 1];
      OnceIsEach(w, shard, f);
      if Own(shard, c) && Parcel(c.blockHash, shard) in Claimed(shard, f) {
        ClaimedBy(shard, f, Parcel(c.blockHash, shard));
      }
    }
  }

  /** What the block executes is what was sent, and no balance overflows. */
  ghost predicate Regular(w: World, n: nat, e: Step)
    requires Can(w, n, e)
  {
    AllUnaltered(w.blocks, e.block.inbound) && Wrapped(w, n, e) == 0
  }

  /** All is paid for, and no parcel is executed again. */
  ghost predicate Sound(w: World, n: nat, e: Step)
    requires Can(w, n, e) && Regular(w, n, e)
  {
    AllPaid(w, n, e) && OnceEach(w, Shard(e), e.block.inbound)
  }

  /** Such a block never destroys value, and keeps the sum exactly if it is sound. */
  lemma StepConserves(w: World, n: nat, e: Step)
    requires WorldOk(w, n) && Can(w, n, e) && Regular(w, n, e)
    ensures WorldOk(Next(w, n, e), n) && Grand(Next(w, n, e)) >= Grand(w)
    ensures Grand(Next(w, n, e)) == Grand(w) <==> Sound(w, n, e)
  {
    StepTotal(w, n, e);
    ClaimedExact(w, n, Shard(e), e.block.inbound);
    PaidForExact(Inbound(w.shards[Shard(e)], Shard(e), e.block.inbound), Shard(e), e.block.txs);
  }

  // ----- what a node could check to be sure of that

  /** The header against which an accepted chunk was checked. */
  ghost function HeaderFor(headers: Headers, c: Chunk): Header
    requires Reachable(headers, c)
  {
    headers[c.txs[0].fromShard][c.blockHash]
  }

  lemma {:induction false} EachAccepted(headers: Headers, chunks: seq<Chunk>, i: nat)
    requires i < |chunks| && forall k :: 0 <= k < |chunks| ==> TxsOk(chunks[k].txs)
    requires InboundVerdict(headers, chunks).Accepted?
    ensures Reachable(headers, chunks[i]) && Passes(HeaderFor(headers, chunks[i]).txRoot, chunks[i])
  {
    InboundExact(headers, chunks);
    assert Fitting(headers, chunks[i]);
  }

  /** The header is the one of a block: its hash is the one it is stored under. */
  ghost predicate TrueHeader(w: World, headers: Headers, c: Chunk) {
    Reachable(headers, c) && HeaderHash(HeaderFor(headers, c)) == c.blockHash && c.blockHash in w.blocks
  }

  ghost predicate TrueHeaders(w: World, e: Step) {
    forall i :: 0 <= i < |e.block.inbound| ==> TrueHeader(w, e.headers, e.block.inbound[i])
  }

  /** The hash fields are digests, in the chunk and in the block it came from. */
  ghost predicate TrueHash(w: World, c: Chunk) {
    Recomputed(c.txs) && (c.blockHash in w.blocks ==> Recomputed(w.blocks[c.blockHash].txs))
  }

  ghost predicate TrueHashes(w: World, e: Step) {
    forall i :: 0 <= i < |e.block.inbound| ==> TrueHash(w, e.block.inbound[i])
  }

  lemma {:induction false} ForRecomputed(txs: seq<Tx>, shard: nat)
    requires Recomputed(txs)
    ensures Recomputed(For(txs, shard))
  {
    if |txs| > 0 {
      ForRecomputed(txs[..|txs| - 1], shard);
    }
  }

  lemma BlockTree(txs: seq<Tx>, n: nat) returns (t: T.Tree)
    requires TxsOk(txs) && n < TWO_64 - FIRST_SHARD
    ensures ChunksOk(Cut(txs, n)) && BlockTrie(t, Cut(txs, n)) && T.RootHash(t) == TxRootOf(txs, n)
  {
    CutOk(Cut(txs, n), txs, n);
    t := R.Run(IndexOps(FIRST_SHARD, Roots(Cut(txs, n))));
    IsBlockTrie(Cut(txs, n), t);
    ListRootIs(FIRST_SHARD, Roots(Cut(txs, n)));
  }

  /** A chunk that passes against the header of a block is the block's own exactly if its hashes are digests. */
  lemma UnalteredExactly(b: Block, n: nat, header: Header, c: Chunk)
    requires Sealed(b, n) && HeaderHash(header) == HeaderHash(b.header)
    requires TxsOk(c.txs) && |c.txs| > 0 && Passes(header.txRoot, c) && Recomputed(b.txs)
    ensures c.txs == For(b.txs, c.txs[0].toShard) <==> Recomputed(c.txs)
  {
    var s := c.txs[0].toShard;
    HeaderHashInjective(header, b.header);
    var t := BlockTree(b.txs, n);
    ForRecomputed(b.txs, s);
    ChunkGenuine(t, Cut(b.txs, n), c, s);
  }

  /** With the headers of blocks, and digests for hashes, chunks that pass are as they were sent. */
  lemma TrueIsUnaltered(w: World, n: nat, e: Step)
    requires WorldOk(w, n) && Can(w, n, e) && TrueHeaders(w, e) && TrueHashes(w, e)
    ensures AllUnaltered(w.blocks, e.block.inbound)
  {
    forall i | 0 <= i < |e.block.inbound|
      ensures Unaltered(w.blocks, e.block.inbound[i])
    {
      var c := e.block.inbound[i];
      EachAccepted(e.headers, e.block.inbound, i);
      assert TrueHeader(w, e.headers, c) && TrueHash(w, c);
      UnalteredExactly(w.blocks[c.blockHash], n, HeaderFor(e.headers, c), c);
    }
  }

  lemma NothingWraps(w: World, n: nat, e: Step)
    requires WorldOk(w, n) && Can(w, n, e) && Grand(w) < TWO_64
    requires UsedUp(w, e) <= w.flight && Credited(e) == Value(w.blocks, UsedUp(w, e))
    ensures Wrapped(w, n, e) == 0
  {
    TotalWithout(Totals(w.shards), Shard(e));
    ValuePart(w.blocks, w.flight, UsedUp(w, e));
    NothingLost(w.shards[Shard(e)], Shard(e), e.block.inbound, e.block.txs);
  }

  /** The guard: paid for, true headers, true hashes, each parcel once. */
  ghost predicate Guarded(w: World, n: nat, e: Step)
    requires Can(w, n, e)
  {
    AllPaid(w, n, e) && TrueHeaders(w, e) && TrueHashes(w, e) && Once(w.flight, Shard(e), e.block.inbound)
  }

  lemma GuardConserves(w: World, n: nat, e: Step)
    requires WorldOk(w, n) && Can(w, n, e) && Guarded(w, n, e) && Grand(w) < TWO_64
    ensures WorldOk(Next(w, n, e), n) && Grand(Next(w, n, e)) == Grand(w)
  {
    TrueIsUnaltered(w, n, e);
    OnceIsEach(w, Shard(e), e.block.inbound);
    ClaimedExact(w, n, Shard(e), e.block.inbound);
    NothingWraps(w, n, e);
    StepConserves(w, n, e);
  }

  // ----- runs

  ghost predicate Possible(w: World, n: nat, es: seq<Step>)
    decreases |es|
  {
    |es| == 0 || (Can(w, n, es[0]) && Possible(Next(w, n, es[0]), n, es[1..]))
  }

  ghost function After(w: World, n: nat, es: seq<Step>): World
    requires Possible(w, n, es)
    decreases |es|
  {
    if |es| == 0 then w else After(Next(w, n, es[0]), n, es[1..])
  }

  /** What the blocks of a run add: value sent, and credited. */
  ghost function Gained(es: seq<Step>): nat {
    if |es| == 0 then 0 else Sent(Shard(es[0]), es[0].block.txs) + Credited(es[0]) + Gained(es[1..])
  }

  /** What they take away: value paid, parcels used up, overflows. */
  ghost function Spent(w: World, n: nat, es: seq<Step>): nat
    requires WorldOk(w, n) && Possible(w, n, es)
    decreases |es|
  {
    if |es| == 0 then 0
    else
      NextOk(w, n, es[0]);
      Paid(w, n, es[0]) + Value(w.blocks, UsedUp(w, es[0])) + Wrapped(w, n, es[0])
          + Spent(Next(w, n, es[0]), n, es[1..])
  }

  /** The exact change over every run. */
  lemma {:induction false} RunTotal(w: World, n: nat, es: seq<Step>)
    requires WorldOk(w, n) && Possible(w, n, es)
    ensures WorldOk(After(w, n, es), n)
    ensures Grand(After(w, n, es)) + Spent(w, n, es) == Grand(w) + Gained(es)
    decreases |es|
  {
    if |es| > 0 {
      StepTotal(w, n, es[0]);
      RunTotal(Next(w, n, es[0]), n, es[1..]);
    }
  }

  ghost predicate EveryRegular(w: World, n: nat, es: seq<Step>)
    requires Possible(w, n, es)
    decreases |es|
  {
    |es| == 0 || (Regular(w, n, es[0]) && EveryRegular(Next(w, n, es[0]), n, es[1..]))
  }

  ghost predicate EverySound(w: World, n: nat, es: seq<Step>)
    requires Possible(w, n, es) && EveryRegular(w, n, es)
    decreases |es|
  {
    |es| == 0 || (Sound(w, n, es[0]) && EverySound(Next(w, n, es[0]), n, es[1..]))
  }

  ghost predicate EveryGuarded(w: World, n: nat, es: seq<Step>)
    requires Possible(w, n, es)
    decreases |es|
  {
    |es| == 0 || (Guarded(w, n, es[0]) && EveryGuarded(Next(w, n, es[0]), n, es[1..]))
  }

  /**
    Over runs of blocks that execute what was sent, the sum never shrinks, and stays the same exactly
    if everything sent was paid for and no parcel was executed again.
   */
  lemma {:induction false} RunConserves(w: World, n: nat, es: seq<Step>)
    requires WorldOk(w, n) && Possible(w, n, es) && EveryRegular(w, n, es)
    ensures WorldOk(After(w, n, es), n) && Grand(After(w, n, es)) >= Grand(w)
    ensures Grand(After(w, n, es)) == Grand(w) <==> EverySound(w, n, es)
    decreases |es|
  {
    if |es| > 0 {
      StepConserves(w, n, es[0]);
      RunConserves(Next(w, n, es[0]), n, es[1..]);
    }
  }

  /** Under the guard every run keeps the sum, if it fits into 64 bits at the start. */
  lemma {:induction false} GuardedRun(w: World, n: nat, es: seq<Step>)
    requires WorldOk(w, n) && Possible(w, n, es) && EveryGuarded(w, n, es) && Grand(w) < TWO_64
    ensures WorldOk(After(w, n, es), n) && Grand(After(w, n, es)) == Grand(w)
    decreases |es|
  {
    if |es| > 0 {
      GuardConserves(w, n, es[0]);
      GuardedRun(Next(w, n, es[0]), n, es[1..]);
    }
  }

  // ----- what the check does not see

  /** The verdict does not depend on amounts, nor on addresses. */
  lemma {:induction false} AlteredVerdict(headers: Headers, c: Chunk, a: Chunk)
    requires TxsOk(c.txs) && TxsOk(a.txs) && c.proof == a.proof && c.blockHash == a.blockHash
    requires Hashes(c.txs) == Hashes(a.txs)
    requires |c.txs| > 0 ==> |a.txs| > 0 && c.txs[0].toShard == a.txs[0].toShard
    requires |c.txs| > 0 ==> c.txs[0].fromShard == a.txs[0].fromShard
    ensures ChunkVerdict(headers, c) == ChunkVerdict(headers, a)
  {
    assert |Hashes(c.txs)| == |c.txs| && |Hashes(a.txs)| == |a.txs|;
    if Reachable(headers, c) {
      AlteredPasses(HeaderFor(headers, c).txRoot, c, a);
    }
  }

  /** An accepted chunk is accepted again, in the same block too. */
  lemma {:induction false} RepeatedVerdict(headers: Headers, chunks: seq<Chunk>, i: nat)
    requires i < |chunks| && forall k :: 0 <= k < |chunks| ==> TxsOk(chunks[k].txs)
    requires InboundVerdict(headers, chunks).Accepted?
    ensures InboundVerdict(headers, chunks + [chunks[i]]).Accepted?
  {
    EachAccepted(headers, chunks, i);
    var more := chunks + [chunks[i]];
    assert more[..|more| - 1] == chunks;
  }

  // ----- none of the guard's parts can be left out

  /** A block without transactions that credits more than its parcels are worth creates value. */
  lemma {:induction false} CreditsMore(w: World, n: nat, e: Step)
    requires WorldOk(w, n) && Can(w, n, e) && e.block.txs == []
    requires Total(w.shards[Shard(e)]) + Credited(e) < TWO_64 && Credited(e) > Value(w.blocks, w.flight)
    ensures AllPaid(w, n, e) && WorldOk(Next(w, n, e), n) && Grand(Next(w, n, e)) > Grand(w)
  {
    StepTotal(w, n, e);
    NothingLost(w.shards[Shard(e)], Shard(e), e.block.inbound, []);
    ValuePart(w.blocks, w.flight, UsedUp(w, e));
    NothingSent(w, n, e);
  }

  lemma {:induction false} NothingSent(w: World, n: nat, e: Step)
    requires Can(w, n, e) && e.block.txs == []
    ensures AllPaid(w, n, e) && Paid(w, n, e) == Sent(Shard(e), e.block.txs) == 0
  {
  }

  const SHARDS: nat := 2
  const SENDER: nat := FIRST_SHARD
  const RECEIVER: nat := FIRST_SHARD + 1

  /** A transfer of v between the shards. */
  ghost predicate Coin(tx: Tx, v: nat) {
    tx.fromShard == SENDER && tx.toShard == RECEIVER && tx.value == v && TxsOk([tx]) && Recomputed([tx])
  }

  lemma MakeCoin(v: nat) returns (tx: Tx)
    requires v < TWO_64
    ensures Coin(tx, v)
  {
    tx := Tx(SENDER, RECEIVER, [1], [2], v, Raw([]));
    tx := tx.(hash := TxDigest(tx));
  }

  lemma {:induction false} ForOne(txs: seq<Tx>)
    requires |txs| == 1 && txs[0].toShard == RECEIVER
    ensures For(txs, RECEIVER) == txs && InRange(txs, SHARDS)
  {
    assert txs == [txs[0]] && |For(txs[..0], RECEIVER)| == 0;
  }

  lemma {:induction false} ValueOne(txs: seq<Tx>)
    requires |txs| == 1 && txs[0].fromShard == SENDER && txs[0].toShard == RECEIVER
    ensures Brought(RECEIVER, txs) == txs[0].value == Sent(SENDER, txs)
  {
    assert Brought(RECEIVER, txs[..0]) == 0 && Sent(SENDER, txs[..0]) == 0;
  }

  lemma ForCoin(tx: Tx, v: nat)
    requires Coin(tx, v)
    ensures For([tx], RECEIVER) == [tx] && Brought(RECEIVER, For([tx], RECEIVER)) == v
    ensures Sent(SENDER, [tx]) == v && InRange([tx], SHARDS)
  {
    ForOne([tx]);
    ValueOne([tx]);
  }

  /** The chunk that carries a coin, with a proof. */
  lemma CoinChunk(tx: Tx, v: nat, h: Blob) returns (c: Chunk)
    requires Coin(tx, v)
    ensures c.blockHash == h && c.txs == [tx] && TxsOk(c.txs) && Passes(TxRootOf([tx], SHARDS), c)
  {
    var t := BlockTree([tx], SHARDS);
    ForCoin(tx, v);
    BlockTrieAt(t, Cut([tx], SHARDS), RECEIVER);
    c := HasProof(t, [tx], h);
  }

  /** A header of a shard for these transactions. */
  ghost predicate Heads(header: Header, shard: nat, txs: seq<Tx>) {
    TxsOk(txs) && header.shardId == shard && header.txRoot == TxRootOf(txs, SHARDS)
  }

  lemma MakeHeader(shard: nat, txs: seq<Tx>) returns (header: Header)
    requires TxsOk(txs)
    ensures Heads(header, shard, txs)
  {
    header := Header(shard, 1, NodeCache.ZERO, EMPTY_ROOT, TxRootOf(txs, SHARDS), [], 0);
  }

  lemma {:induction false} SealedBlock(header: Header, b: Block)
    requires Heads(header, header.shardId, b.txs) && InRange(b.txs, SHARDS) && b.header == header
    ensures Sealed(b, SHARDS)
  {
  }

  /** One coin is on its way, and no account exists. */
  ghost predicate OneCoin(w: World, h: Blob) {
    && WorldOk(w, SHARDS) && w.shards == map[SENDER := map[], RECEIVER := map[]]
    && w.blocks.Keys == {h} && w.blocks[h].header.shardId == SENDER
    && Grand(w) == 1 && Value(w.blocks, w.flight) == 1
  }

  ghost predicate OneCoinClosed(w: World, h: Blob) {
    forall key :: Opens(key) ==> OneCoin(w, h)
  }

  ghost predicate OnTheWay(w: World, h: Blob, tx: Tx) {
    OneCoinClosed(w, h) && w.flight == {Parcel(h, RECEIVER)} && h in w.blocks && w.blocks[h].txs == [tx]
  }

  /** A block for which everything sent is paid for, and yet the sum grows. */
  ghost predicate Creates(w: World, e: Step) {
    forall key :: Opens(key) ==> CreatesValue(w, e) && AllPaid(w, SHARDS, e)
  }

  ghost predicate CreatesValue(w: World, e: Step) {
    && WorldOk(w, SHARDS) && Can(w, SHARDS, e) && Grand(w) < TWO_64
    && WorldOk(Next(w, SHARDS, e), SHARDS) && Grand(Next(w, SHARDS, e)) > Grand(w)
  }

  lemma NoAccounts()
    ensures Total(Totals(map[SENDER := map[], RECEIVER := map[]])) == 0
  {
    var m := Totals(map[SENDER := map[], RECEIVER := map[]]);
    TotalWithout(m, SENDER);
    TotalWithout(m - {SENDER}, RECEIVER);
    assert m - {SENDER} - {RECEIVER} == map[];
  }

  lemma OneParcel(blocks: Ledger, p: Parcel)
    requires p.hash in blocks
    ensures Known(blocks, {p}) && Value(blocks, {p}) == Worth(blocks, p)
  {
    ValueAdd(blocks, {}, p);
    assert Worths(blocks, {}) == map[] && {} + {p} == {p};
  }

  lemma MakeWorld(tx: Tx) returns (w: World, h: Blob)
    requires Coin(tx, 1)
    ensures OnTheWay(w, h, tx) && Heads(w.blocks[h].header, SENDER, [tx]) && h == HeaderHash(w.blocks[h].header)
  {
    var header := MakeHeader(SENDER, [tx]);
    h := HeaderHash(header);
    w := World(map[SENDER := map[], RECEIVER := map[]], map[h := Block(header, [tx], [])], {Parcel(h, RECEIVER)});
    ForCoin(tx, 1);
    WorldWith(w, h, header, tx);
    CloseWorld(w, h);
  }

  lemma {:induction false} WorldWith(w: World, h: Blob, header: Header, tx: Tx)
    requires Heads(header, SENDER, [tx]) && InRange([tx], SHARDS) && h == HeaderHash(header)
    requires w.blocks == map[h := Block(header, [tx], [])] && w.flight == {Parcel(h, RECEIVER)}
    requires w.shards == map[SENDER := map[], RECEIVER := map[]] && Brought(RECEIVER, For([tx], RECEIVER)) == 1
    ensures OneCoin(w, h)
  {
    OneBlock(w, h, w.blocks[h]);
    OneGrand(w, Parcel(h, RECEIVER));
  }

  lemma {:induction false} OneBlock(w: World, h: Blob, b: Block)
    requires w.blocks == map[h := b] && Sealed(b, SHARDS) && h == HeaderHash(b.header)
    requires w.flight == {Parcel(h, RECEIVER)} && w.shards == map[SENDER := map[], RECEIVER := map[]]
    ensures WorldOk(w, SHARDS)
  {
  }

  lemma {:induction false} OneGrand(w: World, p: Parcel)
    requires p.hash in w.blocks && w.flight == {p} && w.shards == map[SENDER := map[], RECEIVER := map[]]
    requires Worth(w.blocks, p) == 1
    ensures Value(w.blocks, w.flight) == Grand(w) == 1
  {
    NoAccounts();
    OneParcel(w.blocks, p);
  }

  lemma CloseWorld(w: World, h: Blob)
    requires OneCoin(w, h)
    ensures OneCoinClosed(w, h)
  {
  }

  /** The receiver's block on such chunks. */
  predicate Received(headers: Headers, inbound: seq<Chunk>, e: Step) {
    Shard(e) == RECEIVER && e.block.inbound == inbound && e.headers == headers
  }

  function Single(h: Blob, header: Header): Headers {
    map[SENDER := map[h := header]]
  }

  /** The receiver's block: no transactions of its own, checked against one header. */
  lemma {:induction false} MakeStep(w: World, h: Blob, headers: Headers, inbound: seq<Chunk>) returns (e: Step)
    requires OneCoin(w, h) && forall i :: 0 <= i < |inbound| ==> TxsOk(inbound[i].txs)
    requires InboundVerdict(headers, inbound).Accepted?
    ensures Can(w, SHARDS, e) && e.block.txs == [] && Received(headers, inbound, e)
  {
    var head := MakeHeader(RECEIVER, []);
    OtherHash(head, w.blocks[h].header);
    e := Step(Block(head, [], inbound), headers);
    SealedBlock(head, e.block);
  }

  lemma OtherHash(a: Header, b: Header)
    requires a.shardId != b.shardId
    ensures HeaderHash(a) != HeaderHash(b)
  {
    if HeaderHash(a) == HeaderHash(b) {
      HeaderHashInjective(a, b);
    }
  }

  /** The one chunk is accepted, also when it is given twice. */
  lemma CoinAccepted(header: Header, h: Blob, c: Chunk)
    requires TxsOk(c.txs) && |c.txs| == 1 && c.txs[0].fromShard == SENDER && c.blockHash == h
    requires Passes(header.txRoot, c)
    ensures InboundVerdict(Single(h, header), [c]).Accepted?
    ensures InboundVerdict(Single(h, header), [c, c]).Accepted?
  {
    assert [c][..0] == [];
    RepeatedVerdict(Single(h, header), [c], 0);
    assert [c] + [c] == [c, c];
  }

  lemma {:induction false} CoinBrings(c: Chunk)
    requires |c.txs| == 1 && c.txs[0].fromShard == SENDER && c.txs[0].toShard == RECEIVER
    ensures BroughtIn(RECEIVER, [c]) == c.txs[0].value && BroughtIn(RECEIVER, [c, c]) == 2 * c.txs[0].value
  {
    ValueOne(c.txs);
    assert [c][..0] == [];
    assert [c, c][..1] == [c];
  }

  predicate FromSender(c: Chunk, h: Blob) {
    c.blockHash == h && |c.txs| == 1 && c.txs[0].fromShard == SENDER && c.txs[0].toShard == RECEIVER
  }

  /** A chunk that brings v in the name of the block on the way. */
  ghost predicate Arrives(w: World, h: Blob, tx: Tx, header: Header, c: Chunk, v: nat) {
    OnTheWay(w, h, tx) && FromSender(c, h) && TxsOk(c.txs) && Passes(header.txRoot, c) && c.txs[0].value == v
  }

  lemma {:induction false} ChunksCreate(w: World, h: Blob, tx: Tx, headers: Headers, inbound: seq<Chunk>)
      returns (e: Step)
    requires OnTheWay(w, h, tx) && forall i :: 0 <= i < |inbound| ==> TxsOk(inbound[i].txs)
    requires InboundVerdict(headers, inbound).Accepted? && BroughtIn(RECEIVER, inbound) == 2
    ensures Creates(w, e) && Received(headers, inbound, e)
  {
    assert Opens(0);
    e := MakeStep(w, h, headers, inbound);
    CreditsMore(w, SHARDS, e);
  }

  /** One chunk that brings two coins, or two that bring one each, create value. */
  lemma ArrivalCreates(w: World, h: Blob, tx: Tx, header: Header, c: Chunk, v: nat) returns (e: Step)
    requires Arrives(w, h, tx, header, c, v) && 1 <= v <= 2
    ensures Creates(w, e) && Received(Single(h, header), if v == 1 then [c, c] else [c], e)
    ensures Copies(e.block.inbound, c)
  {
    CoinAccepted(header, h, c);
    CoinBrings(c);
    if v == 1 {
      e := ChunksCreate(w, h, tx, Single(h, header), [c, c]);
    } else {
      e := ChunksCreate(w, h, tx, Single(h, header), [c]);
    }
  }

  predicate Copies(chunks: seq<Chunk>, c: Chunk) {
    forall i :: 0 <= i < |chunks| ==> chunks[i] == c
  }

  lemma HeadersAreTrue(w: World, e: Step, h: Blob, header: Header, c: Chunk)
    requires e.headers == Single(h, header) && h in w.blocks && h == HeaderHash(header)
    requires Copies(e.block.inbound, c) && FromSender(c, h)
    ensures TrueHeaders(w, e)
  {
    assert TrueHeader(w, e.headers, c);
  }

  lemma HashesAreTrue(w: World, e: Step, h: Blob, c: Chunk)
    requires h in w.blocks && Recomputed(w.blocks[h].txs)
    requires Copies(e.block.inbound, c) && c.blockHash == h && Recomputed(c.txs)
    ensures TrueHashes(w, e)
  {
    assert TrueHash(w, c);
  }

  lemma OneIsOnce(w: World, h: Blob, c: Chunk)
    requires w.flight == {Parcel(h, RECEIVER)} && c.blockHash == h
    ensures Once(w.flight, RECEIVER, [c]) && Claimed(RECEIVER, [c, c]) <= w.flight
  {
    assert [c, c][..1] == [c] && [c][..0] == [];
    assert Claimed(RECEIVER, [c]) <= w.flight;
  }

  lemma AlteredArrives() returns (w: World, h: Blob, tx: Tx, header: Header, c: Chunk)
    ensures Arrives(w, h, tx, header, c, 2) && h == HeaderHash(header)
  {
    tx := MakeCoin(1);
    w, h := MakeWorld(tx);
    header := w.blocks[h].header;
    var own := CoinChunk(tx, 1, h);
    c := own.(txs := [tx.(value := 2)]);
    AlteredPasses(header.txRoot, own, c);
  }

  lemma OwnArrives() returns (w: World, h: Blob, tx: Tx, header: Header, c: Chunk)
    ensures Arrives(w, h, tx, header, c, 1) && h == HeaderHash(header) && Coin(tx, 1) && c.txs == [tx]
  {
    tx := MakeCoin(1);
    w, h := MakeWorld(tx);
    header := w.blocks[h].header;
    c := CoinChunk(tx, 1, h);
  }

  lemma ForgedArrives() returns (w: World, h: Blob, tx: Tx, header: Header, c: Chunk)
    ensures Arrives(w, h, tx, header, c, 2) && Coin(tx, 1) && Recomputed(c.txs)
  {
    tx := MakeCoin(1);
    w, h := MakeWorld(tx);
    var two := MakeCoin(2);
    header := MakeHeader(SENDER, [two]);
    c := CoinChunk(two, 2, h);
  }

  /** A chunk may carry other amounts than were sent. */
  lemma AlteredCreatesValue() returns (w: World, e: Step)
    ensures Creates(w, e) && TrueHeaders(w, e) && Once(w.flight, Shard(e), e.block.inbound)
  {
    var h, tx, header, c;
    w, h, tx, header, c := AlteredArrives();
    e := ArrivalCreates(w, h, tx, header, c, 2);
    HeadersAreTrue(w, e, h, header, c);
    OneIsOnce(w, h, c);
  }

  /** A chunk may be executed more than once. */
  lemma RepeatedCreatesValue() returns (w: World, e: Step)
    ensures Creates(w, e) && TrueHeaders(w, e) && TrueHashes(w, e)
    ensures Claimed(Shard(e), e.block.inbound) <= w.flight
  {
    var h, tx, header, c;
    w, h, tx, header, c := OwnArrives();
    e := ArrivalCreates(w, h, tx, header, c, 1);
    HeadersAreTrue(w, e, h, header, c);
    HashesAreTrue(w, e, h, c);
    OneIsOnce(w, h, c);
  }

  /** The header need not be that of the block whose hash it is stored under. */
  lemma ForgedCreatesValue() returns (w: World, e: Step)
    ensures Creates(w, e) && TrueHashes(w, e) && Once(w.flight, Shard(e), e.block.inbound)
  {
    var h, tx, header, c;
    w, h, tx, header, c := ForgedArrives();
    e := ArrivalCreates(w, h, tx, header, c, 2);
    HashesAreTrue(w, e, h, c);
    OneIsOnce(w, h, c);
  }

  lemma Empty(w: World)
    requires w == World(map[SENDER := map[], RECEIVER := map[]], map[], {})
    ensures WorldOk(w, SHARDS) && Grand(w) == 0
  {
    NoAccounts();
    assert Worths(w.blocks, w.flight) == map[];
  }

  lemma NotPaid(tx: Tx)
    requires Coin(tx, 1)
    ensures !PaidFor(Inbound(map[], SENDER, []), SENDER, [tx]) && Lost(map[], SENDER, [], [tx]) == 0
  {
    assert [tx][..0] == [];
    NothingLost(map[], SENDER, [], [tx]);
  }

  /** An unpaid transaction to another shard is enough. */
  lemma UnpaidCreatesValue() returns (w: World, e: Step)
    ensures CreatesValue(w, e) && TrueHeaders(w, e) && TrueHashes(w, e) && Once(w.flight, Shard(e), e.block.inbound)
  {
    var tx := MakeCoin(1);
    var header := MakeHeader(SENDER, [tx]);
    var b := Block(header, [tx], []);
    w := World(map[SENDER := map[], RECEIVER := map[]], map[], {});
    e := Step(b, map[]);
    ForCoin(tx, 1);
    SealedBlock(header, b);
    UnpaidStep(w, e, tx);
  }

  lemma UnpaidStep(w: World, e: Step, tx: Tx)
    requires w == World(map[SENDER := map[], RECEIVER := map[]], map[], {}) && Coin(tx, 1)
    requires Shard(e) == SENDER && Sealed(e.block, SHARDS) && e.block.txs == [tx] && e.block.inbound == []
    ensures CreatesValue(w, e)
  {
    Empty(w);
    NotPaid(tx);
    StepConserves(w, SHARDS, e);
  }
}
