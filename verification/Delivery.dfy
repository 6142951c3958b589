/**
  Delivery of chunks from other shards. Headers and chunks arrive in any order and more than once;
  a leader puts a chunk into its pool when both are there and the proof passes, and only then.
 */
module Delivery {
  import opened Encoding
  import opened Rlp
  import opened Chunks
  import opened Blocks

  /** What is known from one shard, by block hash. */
  datatype ShardState = ShardState(headers: map<Blob, Header>, inbound: map<Blob, Chunk>)

  type States = map<nat, ShardState>

  /** A header as it arrives: with the hash and the number of signers it claims. */
  datatype HeaderMsg = HeaderMsg(header: Header, hash: Blob, signers: nat)

  /** The place where a chunk is stored. */
  function Key(c: Chunk): (nat, Blob)
    requires |c.txs| > 0
  {
    (c.txs[0].fromShard, c.blockHash)
  }

  ghost predicate ChunkOk(c: Chunk) {
    |c.txs| > 0 && TxsOk(c.txs)
  }

  ghost predicate StoredOk(states: States) {
    forall s, h :: s in states && h in states[s].inbound ==>
        ChunkOk(states[s].inbound[h]) && Key(states[s].inbound[h]) == (s, h)
  }

  /** Header and chunk have both arrived and fit. */
  ghost predicate Ready(states: States, s: nat, h: Blob)
    requires StoredOk(states)
  {
    && s in states && h in states[s].headers && h in states[s].inbound
    && Passes(states[s].headers[h].txRoot, states[s].inbound[h])
  }

  /** The log of everything ever put into the pool: each stored chunk once, exactly when it is ready. */
  ghost predicate Delivered(states: States, log: seq<Chunk>) {
    && StoredOk(states)
    && (forall i :: 0 <= i < |log| ==> ChunkOk(log[i]) && LogEntry(states, log[i]))
    && (forall i, j :: 0 <= i < j < |log| ==> Key(log[i]) != Key(log[j]))
    && (forall s, h :: Ready(states, s, h) ==> Logged(log, s, h))
  }

  /** A chunk in the log is the stored one, and ready. */
  ghost predicate LogEntry(states: States, c: Chunk)
    requires StoredOk(states) && |c.txs| > 0
  {
    Ready(states, Key(c).0, Key(c).1) && states[Key(c).0].inbound[Key(c).1] == c
  }

  ghost predicate Logged(log: seq<Chunk>, s: nat, h: Blob) {
    exists i :: 0 <= i < |log| && |log[i].txs| > 0 && Key(log[i]) == (s, h)
  }

  function WithChunk(states: States, s: nat, h: Blob, c: Chunk): States
    requires s in states
  {
    states[s := states[s].(inbound := states[s].inbound[h := c])]
  }

  function WithHeader(states: States, s: nat, h: Blob, header: Header): States
    requires s in states
  {
    states[s := states[s].(headers := states[s].headers[h := header])]
  }

  lemma LoggedSnoc(log: seq<Chunk>, c: Chunk, s: nat, h: Blob)
    requires |c.txs| > 0
    ensures Logged(log + [c], s, h) <==> Logged(log, s, h) || Key(c) == (s, h)
  {
    if Logged(log, s, h) {
      var i :| 0 <= i < |log| && |log[i].txs| > 0 && Key(log[i]) == (s, h);
      assert (log + [c])[i] == log[i];
    }
    if Key(c) == (s, h) {
      assert (log + [c])[|log|] == c;
    }
    if Logged(log + [c], s, h) {
      var i :| 0 <= i < |log + [c]| && |(log + [c])[i].txs| > 0 && Key((log + [c])[i]) == (s, h);
      assert i < |log| ==> log[i] == (log + [c])[i];
    }
  }

  /** Only one place changes, and it was not ready before. */
  ghost predicate OnePlace(states: States, states': States, s: nat, h: Blob)
    requires StoredOk(states) && StoredOk(states')
  {
    && (forall x: nat, y :: (x, y) != (s, h) ==> (Ready(states', x, y) <==> Ready(states, x, y)))
    && (forall x: nat, y :: (x, y) != (s, h) && Ready(states, x, y) ==> states'[x].inbound[y] == states[x].inbound[y])
    && !Ready(states, s, h)
  }

  lemma LogStays(states: States, states': States, log: seq<Chunk>, s: nat, h: Blob)
    requires Delivered(states, log) && StoredOk(states') && OnePlace(states, states', s, h)
    ensures forall i :: 0 <= i < |log| ==> LogEntry(states', log[i]) && Key(log[i]) != (s, h)
  {
    forall i | 0 <= i < |log|
      ensures LogEntry(states', log[i]) && Key(log[i]) != (s, h)
    {
      assert LogEntry(states, log[i]);
    }
  }

  /** The place is logged just then if it is ready now. */
  lemma PlaceDelivered(states: States, states': States, log: seq<Chunk>, s: nat, h: Blob)
    requires Delivered(states, log) && StoredOk(states') && OnePlace(states, states', s, h)
    ensures Delivered(states', if Ready(states', s, h) then log + [states'[s].inbound[h]] else log)
  {
    LogStays(states, states', log, s, h);
    if Ready(states', s, h) {
      AllLogged(states, states', log, s, h);
      var c := states'[s].inbound[h];
      LogExtends(states', log, c);
    }
  }

  lemma LogExtends(states: States, log: seq<Chunk>, c: Chunk)
    requires StoredOk(states) && ChunkOk(c) && LogEntry(states, c)
    requires forall i :: 0 <= i < |log| ==> |log[i].txs| > 0
    requires forall i :: 0 <= i < |log| ==> ChunkOk(log[i]) && LogEntry(states, log[i]) && Key(log[i]) != Key(c)
    requires forall i, j :: 0 <= i < j < |log| ==> Key(log[i]) != Key(log[j])
    requires forall x: nat, y :: Ready(states, x, y) ==> Logged(log + [c], x, y)
    ensures Delivered(states, log + [c])
  {
  }

  lemma AllLogged(states: States, states': States, log: seq<Chunk>, s: nat, h: Blob)
    requires Delivered(states, log) && StoredOk(states') && OnePlace(states, states', s, h) && Ready(states', s, h)
    ensures forall x: nat, y :: Ready(states', x, y) ==> Logged(log + [states'[s].inbound[h]], x, y)
  {
    var c := states'[s].inbound[h];
    forall x: nat, y | Ready(states', x, y)
      ensures Logged(log + [c], x, y)
    {
      LoggedSnoc(log, c, x, y);
    }
  }

  /** How often the log holds a chunk for a place. */
  function Times(log: seq<Chunk>, s: nat, h: Blob): nat {
    if |log| == 0 then 0
    else Times(log[..|log| - 1], s, h) + if |log[|log| - 1].txs| > 0 && Key(log[|log| - 1]) == (s, h) then 1 else 0
  }

  lemma {:induction false} TimesOnce(log: seq<Chunk>, s: nat, h: Blob)
    requires forall i :: 0 <= i < |log| ==> |log[i].txs| > 0
    requires forall i, j :: 0 <= i < j < |log| ==> Key(log[i]) != Key(log[j])
    ensures Times(log, s, h) == if Logged(log, s, h) then 1 else 0
  {
    if |log| > 0 {
      var f, c := log[..|log| - 1], log[|log| - 1];
      TimesOnce(f, s, h);
      assert log == f + [c];
      LoggedSnoc(f, c, s, h);
    }
  }

  /** Exactly once when header and chunk are there and fit, never otherwise. */
  lemma ExactlyOnce(states: States, log: seq<Chunk>, s: nat, h: Blob)
    requires Delivered(states, log)
    ensures Times(log, s, h) == if Ready(states, s, h) then 1 else 0
  {
    TimesOnce(log, s, h);
    if Logged(log, s, h) {
      var i :| 0 <= i < |log| && |log[i].txs| > 0 && Key(log[i]) == (s, h);
      assert LogEntry(states, log[i]);
    }
  }

  lemma ChunkArrives(states: States, log: seq<Chunk>, c: Chunk, s: nat, h: Blob)
    requires Delivered(states, log) && ChunkOk(c) && (s, h) == Key(c) && s in states && h !in states[s].inbound
    ensures var states' := WithChunk(states, s, h, c);
            StoredOk(states') && Delivered(states', if Ready(states', s, h) then log + [c] else log)
  {
    var states' := WithChunk(states, s, h, c);
    assert OnePlace(states, states', s, h);
    PlaceDelivered(states, states', log, s, h);
  }

  lemma HeaderArrives(states: States, log: seq<Chunk>, header: Header, s: nat, h: Blob)
    requires Delivered(states, log) && s in states && h !in states[s].headers
    ensures var states' := WithHeader(states, s, h, header);
            StoredOk(states') && Delivered(states', if Ready(states', s, h) then log + [states[s].inbound[h]] else log)
  {
    var states' := WithHeader(states, s, h, header);
    assert OnePlace(states, states', s, h);
    PlaceDelivered(states, states', log, s, h);
  }

  // ----- the pool

  /** How many chunks from the front it takes to reach a number of transactions. */
  function Enough(chunks: seq<Chunk>, want: int): (k: nat)
    ensures k <= |chunks|
  {
    if want <= 0 || |chunks| == 0 then 0 else 1 + Enough(chunks[1..], want - |chunks[0].txs|)
  }

  function Load(chunks: seq<Chunk>): nat {
    if |chunks| == 0 then 0 else |chunks[0].txs| + Load(chunks[1..])
  }

  /** Taking stops as soon as the number is reached, and not before unless nothing is left. */
  lemma {:induction false} EnoughIsLeast(chunks: seq<Chunk>, want: int)
    ensures var k := Enough(chunks, want);
            && (Load(chunks[..k]) >= want || k == |chunks|)
            && (k > 0 ==> Load(chunks[..k - 1]) < want)
  {
    if want > 0 && |chunks| > 0 {
      var rest, w := chunks[1..], want - |chunks[0].txs|;
      EnoughIsLeast(rest, w);
      var k := Enough(rest, w);
      assert chunks[..k + 1][1..] == rest[..k];
      if k > 0 {
        assert chunks[..k][1..] == rest[..k - 1];
      }
    }
  }

  class TxPool {
    var pending: seq<Chunk>
    ghost var taken: seq<Chunk> // chunks handed out so far

    constructor ()
      ensures pending == [] && taken == []
    {
      pending, taken := [], [];
    }

    /** Everything ever added, in order. */
    ghost function Log(): seq<Chunk>
      reads this
    {
      taken + pending
    }

    method AddInboundChunk(c: Chunk)
      modifies this
      ensures Log() == old(Log()) + [c] && pending == old(pending) + [c] && taken == old(taken)
    {
      pending := pending + [c];
    }

    /** Hands out chunks from the front: none is lost, repeated or overtaken. */
    method TakeTxs(txLen: int) returns (r: seq<Chunk>)
      modifies this
      ensures Log() == old(Log()) && taken == old(taken) + r && old(pending) == r + pending
      ensures |r| == Enough(old(pending), txLen)
    {
      var want := txLen;
      r := [];
      while |r| < |pending| && want > 0
        invariant |r| <= |pending| && r == pending[..|r|]
        invariant |r| + Enough(pending[|r|..], want) == Enough(pending, txLen)
      {
        var c := pending[|r|];
        assert pending[|r|..][1..] == pending[|r| + 1..];
        want := want - |c.txs|;
        r := r + [c];
      }
      assert pending == r + pending[|r|..];
      taken := taken + r;
      pending := pending[|r|..];
    }
  }

  // ----- the object

  class ShardStates {
    const shardId: nat
    const isLeader: bool
    const threshold: nat
    const txPool: TxPool
    var states: States

    /** A leader's pool has received each stored chunk once, exactly when header and chunk were there and fit. */
    ghost predicate Valid()
      reads this, txPool
    {
      if isLeader && shardId > 1000 then Delivered(states, txPool.Log()) else StoredOk(states) && txPool.Log() == []
    }

    constructor (id: nat, leader: bool, quorum: nat, shardNum: nat, pool: TxPool)
      requires pool.pending == [] && pool.taken == []
      ensures Valid() && txPool == pool && Blank(states)
      ensures forall s :: s in states <==> FIRST_SHARD <= s < FIRST_SHARD + shardNum
    {
      shardId, isLeader, threshold, txPool := id, leader, quorum, pool;
      states := map[];
      new;
      for i := 0 to shardNum
        invariant forall s :: s in states <==> FIRST_SHARD <= s < FIRST_SHARD + i
        invariant forall s :: s in states ==> states[s] == ShardState(map[], map[])
        invariant txPool.pending == [] && txPool.taken == []
      {
        states := states[FIRST_SHARD + i := ShardState(map[], map[])];
      }
    }

    /** Returns whether the header is new. A relay shard only records it. */
    method UpdateHeader(msg: HeaderMsg) returns (first: bool)
      requires Valid()
      modifies this`states, txPool
      ensures Valid() && old(txPool.Log()) <= txPool.Log()
      ensures first <==> && msg.header.shardId in old(states) && msg.signers >= threshold
                         && msg.hash !in old(states)[msg.header.shardId].headers
      ensures states == if first then WithHeader(old(states), msg.header.shardId, msg.hash, msg.header) else old(states)
    {
      first := false;
      var s, h := msg.header.shardId, msg.hash;
      if s in states && msg.signers >= threshold && h !in states[s].headers {
        first := true;
        var checked := false;
        if isLeader && shardId > 1000 {
          HeaderArrives(states, txPool.Log(), msg.header, s, h);
        }
        if shardId > 1000 && h in states[s].inbound {
          checked := CheckInboundChunk(msg.header.txRoot, states[s].inbound[h]);
        }
        states := WithHeader(states, s, h, msg.header);
        if checked && isLeader {
          txPool.AddInboundChunk(states[s].inbound[h]);
        }
      }
    }

    /** Returns whether the chunk is the first for its place; a later one never replaces it. */
    method UpdateInboundChunk(c: Chunk) returns (first: bool)
      requires Valid() && ChunkOk(c) && shardId > 1000
      modifies this`states, txPool
      ensures Valid() && old(txPool.Log()) <= txPool.Log()
      ensures first <==> Key(c).0 in old(states) && Key(c).1 !in old(states)[Key(c).0].inbound
      ensures states == if first then WithChunk(old(states), Key(c).0, Key(c).1, c) else old(states)
    {
      first := false;
      var s, h := c.txs[0].fromShard, c.blockHash;
      if s in states && h !in states[s].inbound {
        first := true;
        var checked := false;
        if isLeader {
          ChunkArrives(states, txPool.Log(), c, s, h);
        }
        states := WithChunk(states, s, h, c);
        if h in states[s].headers {
          checked := CheckInboundChunk(states[s].headers[h].txRoot, c);
        }
        if checked && isLeader {
          txPool.AddInboundChunk(c);
        }
      }
    }
  }

  // ----- runs

  datatype Event = HeaderEvent(msg: HeaderMsg) | ChunkEvent(chunk: Chunk) | TakeEvent(txLen: int)

  /** Who receives: the shard and how many signers a header needs. */
  datatype Receiver = Receiver(shardId: nat, threshold: nat)

  /** What one event does to what is known: only the first header and the first chunk of a place are kept. */
  function Arrived(r: Receiver, states: States, e: Event): States {
    match e
    case HeaderEvent(m) =>
      var s := m.header.shardId;
      if s in states && m.signers >= r.threshold && m.hash !in states[s].headers
      then WithHeader(states, s, m.hash, m.header) else states
    case ChunkEvent(c) =>
      if |c.txs| > 0 && c.txs[0].toShard == r.shardId && Key(c).0 in states && Key(c).1 !in states[Key(c).0].inbound
      then WithChunk(states, Key(c).0, Key(c).1, c) else states
    case TakeEvent(_) => states
  }

  function AllArrived(r: Receiver, states: States, events: seq<Event>): States {
    if |events| == 0 then states else Arrived(r, AllArrived(r, states, events[..|events| - 1]), events[|events| - 1])
  }

  // What the events themselves say about a place.

  function Either<T>(a: Option<T>, b: Option<T>): Option<T> {
    if a.Some? then a else b
  }

  function HeaderIn(r: Receiver, e: Event, s: nat, h: Blob): Option<Header> {
    if e.HeaderEvent? && e.msg.header.shardId == s && e.msg.hash == h && e.msg.signers >= r.threshold
    then Some(e.msg.header) else None
  }

  function ChunkIn(r: Receiver, e: Event, s: nat, h: Blob): Option<Chunk> {
    if e.ChunkEvent? && |e.chunk.txs| > 0 && e.chunk.txs[0].toShard == r.shardId && Key(e.chunk) == (s, h)
    then Some(e.chunk) else None
  }

  /** The first header with enough signers for a place. */
  function FirstHeader(r: Receiver, events: seq<Event>, s: nat, h: Blob): Option<Header> {
    if |events| == 0 then None
    else Either(FirstHeader(r, events[..|events| - 1], s, h), HeaderIn(r, events[|events| - 1], s, h))
  }

  /** The first chunk for the receiver and a place. */
  function FirstChunk(r: Receiver, events: seq<Event>, s: nat, h: Blob): Option<Chunk> {
    if |events| == 0 then None
    else Either(FirstChunk(r, events[..|events| - 1], s, h), ChunkIn(r, events[|events| - 1], s, h))
  }

  lemma {:induction false} FirstHeaderArrived(r: Receiver, events: seq<Event>, s: nat, h: Blob)
    ensures FirstHeader(r, events, s, h).Some? <==> exists i :: 0 <= i < |events| && HeaderIn(r, events[i], s, h).Some?
  {
    if |events| > 0 {
      FirstHeaderArrived(r, events[..|events| - 1], s, h);
    }
  }

  lemma {:induction false} FirstChunkArrived(r: Receiver, events: seq<Event>, s: nat, h: Blob)
    ensures FirstChunk(r, events, s, h).Some? <==> exists i :: 0 <= i < |events| && ChunkIn(r, events[i], s, h).Some?
  {
    if |events| > 0 {
      FirstChunkArrived(r, events[..|events| - 1], s, h);
    }
  }

  function HeaderAt(states: States, s: nat, h: Blob): Option<Header> {
    if s in states && h in states[s].headers then Some(states[s].headers[h]) else None
  }

  function ChunkAt(states: States, s: nat, h: Blob): Option<Chunk> {
    if s in states && h in states[s].inbound then Some(states[s].inbound[h]) else None
  }

  lemma ArrivedAt(r: Receiver, states: States, e: Event, s: nat, h: Blob)
    requires s in states
    ensures Arrived(r, states, e).Keys == states.Keys
    ensures HeaderAt(Arrived(r, states, e), s, h) == Either(HeaderAt(states, s, h), HeaderIn(r, e, s, h))
    ensures ChunkAt(Arrived(r, states, e), s, h) == Either(ChunkAt(states, s, h), ChunkIn(r, e, s, h))
  {
  }

  /** Whatever the order, what is known in the end is what was known before, or else came first. */
  lemma {:induction false} KnownIsFirst(r: Receiver, states: States, events: seq<Event>, s: nat, h: Blob)
    requires s in states
    ensures AllArrived(r, states, events).Keys == states.Keys
    ensures HeaderAt(AllArrived(r, states, events), s, h) ==
            Either(HeaderAt(states, s, h), FirstHeader(r, events, s, h))
    ensures ChunkAt(AllArrived(r, states, events), s, h) ==
            Either(ChunkAt(states, s, h), FirstChunk(r, events, s, h))
  {
    if |events| > 0 {
      var f, e := events[..|events| - 1], events[|events| - 1];
      KnownIsFirst(r, states, f, s, h);
      ArrivedAt(r, AllArrived(r, states, f), e, s, h);
    }
  }

  lemma {:induction false} ShardsKept(r: Receiver, states: States, events: seq<Event>)
    ensures AllArrived(r, states, events).Keys == states.Keys
  {
    if |events| > 0 {
      ShardsKept(r, states, events[..|events| - 1]);
    }
  }

  ghost predicate ChunksChecked(events: seq<Event>) {
    forall i :: 0 <= i < |events| && events[i].ChunkEvent? ==> TxsOk(events[i].chunk.txs)
  }

  lemma {:induction false} FirstChunkOk(r: Receiver, events: seq<Event>, s: nat, h: Blob)
    requires ChunksChecked(events) && FirstChunk(r, events, s, h).Some?
    ensures ChunkOk(FirstChunk(r, events, s, h).value)
  {
    if FirstChunk(r, events[..|events| - 1], s, h).Some? {
      FirstChunkOk(r, events[..|events| - 1], s, h);
    }
  }

  /** The first header and the first chunk for a place have both arrived, and the chunk fits the header. */
  ghost predicate Fits(r: Receiver, events: seq<Event>, s: nat, h: Blob)
    requires ChunksChecked(events)
  {
    && FirstHeader(r, events, s, h).Some? && FirstChunk(r, events, s, h).Some?
    && (FirstChunkOk(r, events, s, h);
        Passes(FirstHeader(r, events, s, h).value.txRoot, FirstChunk(r, events, s, h).value))
  }

  /** Nothing has arrived yet. */
  predicate Blank(states: States) {
    forall s :: s in states ==> states[s] == ShardState(map[], map[])
  }

  /** From nothing, places are ready exactly if the first header and the first chunk of the events fit. */
  lemma ReadyExactly(r: Receiver, states: States, events: seq<Event>, s: nat, h: Blob)
    requires Blank(states) && ChunksChecked(events) && StoredOk(AllArrived(r, states, events))
    ensures Ready(AllArrived(r, states, events), s, h) <==> s in states && Fits(r, events, s, h)
  {
    ShardsKept(r, states, events);
    if s in states {
      KnownIsFirst(r, states, events, s, h);
      assert HeaderAt(states, s, h) == None && ChunkAt(states, s, h) == None;
    }
  }

  lemma LoggedIsFirst(r: Receiver, states: States, events: seq<Event>, log: seq<Chunk>, i: nat)
    requires Blank(states) && i < |log| && Delivered(AllArrived(r, states, events), log)
    ensures |log[i].txs| > 0 && FirstChunk(r, events, Key(log[i]).0, Key(log[i]).1) == Some(log[i])
  {
    ShardsKept(r, states, events);
    assert LogEntry(AllArrived(r, states, events), log[i]);
    KnownIsFirst(r, states, events, Key(log[i]).0, Key(log[i]).1);
  }

  /** Whatever arrives in whatever order, what is known is what came first, and the pool got just what is ready. */
  method Deliver(ss: ShardStates, events: seq<Event>)
    requires ss.Valid() && ss.isLeader && ss.shardId > 1000 && ChunksChecked(events)
    modifies ss`states, ss.txPool
    ensures ss.Valid() && old(ss.txPool.Log()) <= ss.txPool.Log()
    ensures ss.states == AllArrived(Receiver(ss.shardId, ss.threshold), old(ss.states), events)
    ensures forall s, h :: Times(ss.txPool.Log(), s, h) == if StoredOk(ss.states) && Ready(ss.states, s, h) then 1
        else 0
  {
    ghost var r := Receiver(ss.shardId, ss.threshold);
    for i := 0 to |events|
      invariant ss.Valid() && old(ss.txPool.Log()) <= ss.txPool.Log()
      invariant ss.states == AllArrived(r, old(ss.states), events[..i])
    {
      assert events[..i + 1][..i] == events[..i];
      Arrive(ss, events[i]);
    }
    assert events[..|events|] == events;
    forall s, h
      ensures Times(ss.txPool.Log(), s, h) == if Ready(ss.states, s, h) then 1 else 0
    {
      ExactlyOnce(ss.states, ss.txPool.Log(), s, h);
    }
  }

  /**
    From nothing: a place of a known shard has been delivered once if the first header and the first
    chunk that arrived for it fit, and never otherwise; and what was delivered is that first chunk.
   */
  method DeliverFirst(ss: ShardStates, events: seq<Event>)
    requires ss.Valid() && ss.isLeader && ss.shardId > 1000 && ChunksChecked(events) && Blank(ss.states)
    modifies ss`states, ss.txPool
    ensures ss.Valid() && ss.states.Keys == old(ss.states).Keys
    ensures forall s: nat, h: Blob ::
        Times(ss.txPool.Log(), s, h) ==
        (if s in ss.states && Fits(Receiver(ss.shardId, ss.threshold), events, s, h) then 1 else 0)
    ensures forall i :: 0 <= i < |ss.txPool.Log()| ==> var c := ss.txPool.Log()[i];
        |c.txs| > 0 && FirstChunk(Receiver(ss.shardId, ss.threshold), events, Key(c).0, Key(c).1) == Some(c)
  {
    ghost var r, before := Receiver(ss.shardId, ss.threshold), ss.states;
    Deliver(ss, events);
    ShardsKept(r, before, events);
    forall s: nat, h: Blob
      ensures Times(ss.txPool.Log(), s, h) == if s in ss.states && Fits(r, events, s, h) then 1 else 0
    {
      ReadyExactly(r, before, events, s, h);
    }
    forall i | 0 <= i < |ss.txPool.Log()|
      ensures var c := ss.txPool.Log()[i]; |c.txs| > 0 && FirstChunk(r, events, Key(c).0, Key(c).1) == Some(c)
    {
      LoggedIsFirst(r, before, events, ss.txPool.Log(), i);
    }
  }

  /** Chunks for other shards and empty ones are dropped before they are stored. */
  method Arrive(ss: ShardStates, e: Event)
    requires ss.Valid() && ss.shardId > 1000 && (e.ChunkEvent? ==> TxsOk(e.chunk.txs))
    modifies ss`states, ss.txPool
    ensures ss.Valid() && old(ss.txPool.Log()) <= ss.txPool.Log()
    ensures ss.states == Arrived(Receiver(ss.shardId, ss.threshold), old(ss.states), e)
  {
    match e {
      case HeaderEvent(msg) => var first := ss.UpdateHeader(msg);
      case ChunkEvent(c) =>
        if |c.txs| > 0 && c.txs[0].toShard == ss.shardId {
          var first := ss.UpdateInboundChunk(c);
        }
      case TakeEvent(n) => var r := ss.txPool.TakeTxs(n);
    }
  }
}
