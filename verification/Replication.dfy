/**
  Consensus and execution together. Next to its consensus state every correct node has accounts:
  a validator takes on a block only if its check of the content accepts it, the leader proposes what
  it has built and executed, and committing a block opens the state under the block's root. Inbound
  chunks are not part of a header, so nodes may hold different bodies of one block.
 */
module Replication {
  import opened Encoding
  import opened Rlp
  import opened Seal
  import opened Journal
  import opened Chunks
  import opened Bft
  import opened Guarantees
  import opened Leading
  import NodeCache
  import B = Blocks
  import A = Agreement

  // ----- blocks of the consensus and blocks of the chain

  /** The digest that a block hash stands for. */
  function Digest(h: Hash): Blob {
    match h
    case ZeroHash => NodeCache.ZERO
    case HashOf(b) => B.HeaderHash(Head(b))
  }

  function Head(b: Block): B.Header {
    var p := b.payload;
    B.Header(p.shardId, b.height, Digest(b.prev), p.stateRoot, p.txRoot, p.dst, p.time)
  }

  /** A header digest determines the block and its whole history. */
  lemma {:induction false} DigestInjective(h: Hash, g: Hash)
    requires Digest(h) == Digest(g)
    ensures h == g
  {
    if h.HashOf? && g.HashOf? {
      B.HeaderHashInjective(Head(h.block), Head(g.block));
      DigestInjective(h.block.prev, g.block.prev);
    }
  }

  /** A block built on top of the chain is the proposal with its contents. */
  lemma BuiltIsProposal(g: B.Config, m: Accounts, latest: Option<Block>, b: B.Block)
    requires B.ConfigOk(g) && TxsOk(b.txs) && B.Builds(g, m, Newest(latest), b)
    ensures var h := b.header;
            var p := Payload(h.shardId, h.stateRoot, h.txRoot, h.dst, h.time);
            Whole(NewBlock(latest, p), Body(b.txs, b.inbound)) == b
  {
    if latest.Some? {
      assert Newest(latest).value.header == Head(latest.value);
      assert Digest(HashOf(latest.value)) == b.header.prev;
    } else {
      assert Digest(ZeroHash) == b.header.prev;
    }
  }

  // ----- replicas

  /** What a block holds besides its header. */
  datatype Body = Body(txs: seq<Tx>, inbound: seq<Chunk>)

  function Whole(b: Block, body: Body): B.Block {
    B.Block(Head(b), body.txs, body.inbound)
  }

  predicate BodyOk(body: Body) {
    TxsOk(body.txs) && forall i :: 0 <= i < |body.inbound| ==> TxsOk(body.inbound[i].txs)
  }

  predicate AllOk(bodies: seq<Body>) {
    forall i :: 0 <= i < |bodies| ==> BodyOk(bodies[i])
  }

  /**
    accounts is the state database, settled its state after the last commit; body belongs to the
    current block and bodies to the committed ones.
   */
  datatype Replica = Replica(accounts: Accounts, settled: Accounts, body: Option<Body>, bodies: seq<Body>)

  const FRESH: Replica := Replica(map[], map[], None, [])

  function Newest(latest: Option<Block>): Option<B.Block> {
    if latest.None? then None else Some(Whole(latest.value, Body([], [])))
  }

  /** The accounts under a root. */
  ghost function Opened(root: Blob, otherwise: Accounts): (m: Accounts)
    ensures (exists x :: B.IsStateRoot(root, x)) ==> B.IsStateRoot(root, m)
  {
    if exists x :: B.IsStateRoot(root, x) then
      var x :| B.IsStateRoot(root, x);
      x
    else otherwise
  }

  /** What a step of the consensus does to the node's replica. */
  ghost function Turn(g: B.Config, r: Replica, s: State, t: State, body: Body, leads: bool): Replica
    requires BodyOk(body)
  {
    if |t.committed| > |s.committed| && r.body.Some? then
      var m := Opened(t.committed[|t.committed| - 1].payload.stateRoot, r.accounts);
      Replica(m, m, r.body, r.bodies + [r.body.value])
    else if t.current.Some? && t.current != s.current then
      var m := if leads then B.Result(g, r.accounts, Whole(t.current.value, body)) else r.accounts;
      r.(accounts := m, body := Some(body))
    else r
  }

  // ----- what a block leads to

  /** The accounts after a chain of blocks, from an empty state on. */
  function Folded(g: B.Config, bs: seq<Block>, bodies: seq<Body>): Accounts
    requires |bs| == |bodies| && AllOk(bodies)
  {
    if |bs| == 0 then map[]
    else
      var n := |bs| - 1;
      B.Result(g, Folded(g, bs[..n], bodies[..n]), Whole(bs[n], bodies[n]))
  }

  lemma FoldedSnoc(g: B.Config, bs: seq<Block>, bodies: seq<Body>, b: Block, body: Body)
    requires |bs| == |bodies| && BodyOk(body) && AllOk(bodies)
    ensures AllOk(bodies + [body])
    ensures Folded(g, bs + [b], bodies + [body]) == B.Result(g, Folded(g, bs, bodies), Whole(b, body))
  {
    assert (bs + [b])[..|bs|] == bs && (bodies + [body])[..|bs|] == bodies;
  }

  /** Every root of the chain is the root of the accounts up to there. */
  ghost predicate Rooted(g: B.Config, bs: seq<Block>, bodies: seq<Body>) {
    && |bs| == |bodies| && AllOk(bodies)
    && forall k :: 0 < k <= |bs| ==> RootedAt(g, bs, bodies, k)
  }

  ghost predicate RootedAt(g: B.Config, bs: seq<Block>, bodies: seq<Body>, k: nat)
    requires 0 < k <= |bs| == |bodies| && AllOk(bodies)
  {
    B.IsStateRoot(bs[k - 1].payload.stateRoot, Folded(g, bs[..k], bodies[..k]))
  }

  lemma RootedSnoc(g: B.Config, bs: seq<Block>, bodies: seq<Body>, b: Block, body: Body)
    requires Rooted(g, bs, bodies) && BodyOk(body)
    requires B.IsStateRoot(b.payload.stateRoot, B.Result(g, Folded(g, bs, bodies), Whole(b, body)))
    ensures Rooted(g, bs + [b], bodies + [body])
  {
    FoldedSnoc(g, bs, bodies, b, body);
    var cs, cbodies := bs + [b], bodies + [body];
    forall k | 0 < k <= |cs|
      ensures RootedAt(g, cs, cbodies, k)
    {
      if k <= |bs| {
        assert RootedAt(g, bs, bodies, k);
        assert cs[..k] == bs[..k] && cbodies[..k] == bodies[..k];
      } else {
        assert cs[..k] == cs && cbodies[..k] == cbodies;
      }
    }
  }

  // ----- the invariant

  /** A block is being agreed on. */
  ghost predicate Pending(s: State) {
    s.current.Some? && s.phase.stage != Commit
  }

  /** The current block fits the settled accounts. */
  ghost predicate CurrentOk(g: B.Config, s: State, r: Replica, leads: bool) {
    if !Pending(s) then r.accounts == r.settled
    else
      && r.body.Some? && BodyOk(r.body.value)
      && var result := B.Result(g, r.settled, Whole(s.current.value, r.body.value));
         && B.IsStateRoot(s.current.value.payload.stateRoot, result)
         && r.accounts == if leads then result else r.settled
  }

  ghost predicate ReplicaOk(g: B.Config, s: State, r: Replica, leads: bool) {
    Rooted(g, s.committed, r.bodies) && r.settled == Folded(g, s.committed, r.bodies) && CurrentOk(g, s, r, leads)
  }

  // ----- the kinds of steps

  /** The same block is being worked on. */
  ghost predicate Stays(s: State, t: State) {
    t.committed == s.committed && t.current == s.current && (Pending(t) <==> Pending(s))
  }

  /** A new block is taken on, or proposed; none was pending. */
  ghost predicate Takes(s: State, t: State) {
    t.committed == s.committed && t.current.Some? && t.current != s.current && !Pending(s) && Pending(t)
  }

  /** The pending block is committed. */
  ghost predicate Commits(s: State, t: State) {
    Pending(s) && !Pending(t) && t.current == s.current && t.committed == s.committed + [s.current.value]
  }

  lemma PrepareKind(s: State, c: Committee, m: Message, signed: set<Sig>, ok: bool)
    requires ValidatorOk(s, c, signed)
    ensures var t := OnPrepare(s, c, m, signed, ok).state;
            Stays(s, t) || (Takes(s, t) && t.current == Some(m.block) && ok)
  {
    var t := OnPrepare(s, c, m, signed, ok).state;
    if t.current != s.current {
      assert t.phase == Phase(m.block.height, Prepare);
    }
  }

  lemma PrecommitKind(s: State, c: Committee, m: Message, signed: set<Sig>)
    requires ValidatorOk(s, c, signed)
    ensures Stays(s, OnPrecommit(s, c, m, signed).state)
  {
  }

  lemma CommitKind(s: State, c: Committee, m: Message, signed: set<Sig>)
    requires ValidatorOk(s, c, signed)
    ensures var t := OnCommit(s, c, m, signed).state; Stays(s, t) || Commits(s, t)
  {
  }

  lemma ProposeKind(s: State, c: Committee, signed: set<Sig>, payload: Payload)
    requires LeaderOk(s, c, signed) && !Pending(s)
    ensures var t := Propose(s, c, payload).state; Takes(s, t) && t.current == Some(NewBlock(s.latest, payload))
  {
  }

  lemma VoteKind(s: State, c: Committee, m: Message, stage: Stage, signed: set<Sig>, payload: Payload)
    requires LeaderOk(s, c, signed) && stage != Init
    ensures var t := OnVote(s, c, m, stage, signed, payload).state;
            Stays(s, t) || Commits(s, t) || (Takes(s, t) && t.current == Some(NewBlock(s.latest, payload)))
  {
    VoteVerdictOrHalted(s, c, m, stage, signed);
    if !s.halted && CountVote(s, c, m, stage, signed).Counted? {
      CountedKind(s, c, stage, signed, CountVote(s, c, m, stage, signed).tally, payload);
    }
  }

  lemma CountedKind(s: State, c: Committee, stage: Stage, signed: set<Sig>, x: Tally, payload: Payload)
    requires LeaderOk(s, c, signed) && stage == s.phase.stage != Init && s.current.Some?
    ensures var u := SetTally(s, stage, x);
            var t := (if Enough(c, Some(x)) then MoveOn(u, c, stage, payload) else Ignore(u)).state;
            Stays(s, t) || Commits(s, t) || (Takes(s, t) && t.current == Some(NewBlock(s.latest, payload)))
  {
  }

  // ----- the steps keep the invariant

  lemma StaysOk(g: B.Config, r: Replica, s: State, t: State, body: Body, leads: bool)
    requires ReplicaOk(g, s, r, leads) && Stays(s, t) && BodyOk(body)
    ensures ReplicaOk(g, t, Turn(g, r, s, t, body, leads), leads)
  {
  }

  lemma TakesOk(g: B.Config, r: Replica, s: State, t: State, body: Body, leads: bool)
    requires ReplicaOk(g, s, r, leads) && Takes(s, t) && BodyOk(body)
    requires B.IsStateRoot(t.current.value.payload.stateRoot, B.Result(g, r.accounts, Whole(t.current.value, body)))
    ensures ReplicaOk(g, t, Turn(g, r, s, t, body, leads), leads)
  {
  }

  lemma CommitsOk(g: B.Config, r: Replica, s: State, t: State, body: Body, leads: bool)
    requires ReplicaOk(g, s, r, leads) && Commits(s, t) && BodyOk(body)
    ensures ReplicaOk(g, t, Turn(g, r, s, t, body, leads), leads)
  {
    var b, own := s.current.value, r.body.value;
    var result := B.Result(g, r.settled, Whole(b, own));
    var m := Opened(b.payload.stateRoot, r.accounts);
    B.StateRootsAgree(b.payload.stateRoot, m, b.payload.stateRoot, result);
    FoldedSnoc(g, s.committed, r.bodies, b, own);
    RootedSnoc(g, s.committed, r.bodies, b, own);
  }

  /** An accepted block has the root of its result. */
  lemma AcceptedRoot(g: B.Config, m: Accounts, latest: Option<Block>, headers: B.Headers, b: Block, body: Body)
    requires B.ConfigOk(g) && BodyOk(body) && B.Check(g, m, Newest(latest), headers, Whole(b, body)).Accepted?
    ensures B.IsStateRoot(b.payload.stateRoot, B.Result(g, m, Whole(b, body)))
  {
  }

  // ----- runs

  datatype World = World(sys: A.Sys, replicas: map<nat, Replica>)

  /** An event, with the body of the block in it and the headers known where it happens. */
  datatype Input = Input(e: A.Event, body: Body, headers: B.Headers)

  ghost function Begin(g: A.Config): World {
    World(A.Initial(g), map i | i in A.Initial(g).nodes :: FRESH)
  }

  /**
    Contents of blocks: a validator's check decides whether it takes a block on, and what the
    leader proposes is what it has built from its own accounts.
   */
  ghost predicate Fits(g: A.Config, f: B.Config, w: World, x: Input)
    requires B.ConfigOk(f) && BodyOk(x.body) && !x.e.FaultySigns?
    requires A.At(g, x.e) in w.sys.nodes && A.At(g, x.e) in w.replicas
  {
    var s, r := w.sys.nodes[A.At(g, x.e)], w.replicas[A.At(g, x.e)];
    match x.e
    case PrepareMsg(_, m, ok) =>
      ok <==> B.Check(f, r.accounts, Newest(s.latest), x.headers, Whole(m.block, x.body)).Accepted?
    case LeaderStarts(p) => B.Builds(f, r.accounts, Newest(s.latest), Whole(NewBlock(s.latest, p), x.body))
    case Vote(_, _, p) =>
      A.React(s, g.c, x.e, w.sys.signed).state.current != s.current ==>
        B.Builds(f, r.accounts, Newest(s.latest), Whole(NewBlock(s.latest, p), x.body))
    case _ => true
  }

  ghost predicate Step(g: A.Config, f: B.Config, w: World, x: Input, w': World)
    requires B.ConfigOk(f)
  {
    && A.Allowed(g, w.sys, x.e) && BodyOk(x.body)
    && if x.e.FaultySigns? then w' == w.(sys := A.Next(g, w.sys, x.e))
       else
         var i := A.At(g, x.e);
         && i in w.sys.nodes && i in w.replicas && Fits(g, f, w, x)
         && var s, r := w.sys.nodes[i], A.React(w.sys.nodes[i], g.c, x.e, w.sys.signed);
            && w'.sys == A.Next(g, w.sys, x.e)
            && w'.replicas == w.replicas[i := Turn(f, w.replicas[i], s, r.state, x.body, i == g.leader)]
  }

  ghost predicate StepAt(g: A.Config, f: B.Config, xs: seq<Input>, ws: seq<World>, i: nat)
    requires B.ConfigOk(f) && i < |xs| && |ws| == |xs| + 1
  {
    Step(g, f, ws[i], xs[i], ws[i + 1])
  }

  ghost predicate Run(g: A.Config, f: B.Config, xs: seq<Input>, ws: seq<World>)
    requires B.ConfigOk(f)
  {
    |ws| == |xs| + 1 && ws[0] == Begin(g) && forall i :: 0 <= i < |xs| ==> StepAt(g, f, xs, ws, i)
  }

  /** What holds of every node, quantified so that only proofs that mention Opens look inside. */
  ghost predicate Kept(g: A.Config, f: B.Config, w: World) {
    && w.replicas.Keys == w.sys.nodes.Keys
    && forall i, key :: i in w.replicas && Opens(key) ==> NodeKept(g, f, w, i)
  }

  ghost predicate NodeKept(g: A.Config, f: B.Config, w: World, i: nat)
    requires i in w.replicas && i in w.sys.nodes
  {
    ReplicaOk(f, w.sys.nodes[i], w.replicas[i], i == g.leader)
  }

  /** Where a block is taken on, its root is that of its result. */
  ghost predicate KindOk(f: B.Config, r: Replica, s: State, t: State, body: Body)
    requires BodyOk(body)
  {
    || Stays(s, t) || Commits(s, t)
    || (&& Takes(s, t)
        && B.IsStateRoot(t.current.value.payload.stateRoot, B.Result(f, r.accounts, Whole(t.current.value, body))))
  }

  lemma PrepareFits(g: A.Config, f: B.Config, w: World, x: Input, s: State)
    requires B.ConfigOk(f) && BodyOk(x.body) && x.e.PrepareMsg? && x.e.to in w.sys.nodes && x.e.to in w.replicas
    requires s == w.sys.nodes[x.e.to] && Fits(g, f, w, x) && ValidatorOk(s, g.c, w.sys.signed)
    ensures KindOk(f, w.replicas[x.e.to], s, A.React(s, g.c, x.e, w.sys.signed).state, x.body)
  {
    PrepareKind(s, g.c, x.e.m, w.sys.signed, x.e.contentOk);
    if x.e.contentOk {
      AcceptedRoot(f, w.replicas[x.e.to].accounts, s.latest, x.headers, x.e.m.block, x.body);
    }
  }

  lemma LeaderFits(g: A.Config, f: B.Config, w: World, x: Input, s: State)
    requires B.ConfigOk(f) && BodyOk(x.body) && g.leader in w.sys.nodes && g.leader in w.replicas
    requires x.e.LeaderStarts? || x.e.Vote?
    requires s == w.sys.nodes[g.leader] && Fits(g, f, w, x) && LeaderOk(s, g.c, w.sys.signed)
    requires A.Allowed(g, w.sys, x.e)
    ensures KindOk(f, w.replicas[g.leader], s, A.React(s, g.c, x.e, w.sys.signed).state, x.body)
  {
    match x.e
    case LeaderStarts(p) => ProposeKind(s, g.c, w.sys.signed, p);
    case Vote(stage, m, p) => VoteKind(s, g.c, m, stage, w.sys.signed, p);
  }

  lemma KindsOk(g: A.Config, f: B.Config, w: World, x: Input, i: nat, s: State)
    requires B.ConfigOk(f) && A.SysOk(g, w.sys) && w.replicas.Keys == w.sys.nodes.Keys
    requires A.Allowed(g, w.sys, x.e) && BodyOk(x.body) && !x.e.FaultySigns?
    requires i == A.At(g, x.e) && i in w.sys.nodes && s == w.sys.nodes[i] && Fits(g, f, w, x)
    ensures KindOk(f, w.replicas[i], s, A.React(s, g.c, x.e, w.sys.signed).state, x.body)
  {
    assert A.RoleOk(g, s, w.sys.signed);
    match x.e
    case PrepareMsg(_, _, _) => PrepareFits(g, f, w, x, s);
    case PrecommitMsg(_, m) => PrecommitKind(s, g.c, m, w.sys.signed);
    case CommitMsg(_, m) => CommitKind(s, g.c, m, w.sys.signed);
    case LeaderStarts(_) => LeaderFits(g, f, w, x, s);
    case Vote(_, _, _) => LeaderFits(g, f, w, x, s);
  }

  lemma TurnOk(f: B.Config, r: Replica, s: State, t: State, body: Body, leads: bool)
    requires BodyOk(body) && ReplicaOk(f, s, r, leads) && KindOk(f, r, s, t, body)
    ensures ReplicaOk(f, t, Turn(f, r, s, t, body, leads), leads)
  {
    if Stays(s, t) {
      StaysOk(f, r, s, t, body, leads);
    } else if Commits(s, t) {
      CommitsOk(f, r, s, t, body, leads);
    } else {
      TakesOk(f, r, s, t, body, leads);
    }
  }

  /** The node at which an event happens. */
  lemma ActorOk(g: A.Config, f: B.Config, w: World, x: Input, w': World, i: nat)
    requires B.ConfigOk(f) && A.SysOk(g, w.sys) && Step(g, f, w, x, w') && !x.e.FaultySigns? && i == A.At(g, x.e)
    requires w.replicas.Keys == w.sys.nodes.Keys && i in w.replicas && NodeKept(g, f, w, i)
    ensures i in w'.replicas && i in w'.sys.nodes && NodeKept(g, f, w', i)
  {
    var s := w.sys.nodes[i];
    KindsOk(g, f, w, x, i, s);
    TurnOk(f, w.replicas[i], s, A.React(s, g.c, x.e, w.sys.signed).state, x.body, i == g.leader);
  }

  lemma StepKept(g: A.Config, f: B.Config, w: World, x: Input, w': World)
    requires B.ConfigOk(f) && A.SysOk(g, w.sys) && Kept(g, f, w) && Step(g, f, w, x, w')
    ensures Kept(g, f, w')
  {
    forall i, key | i in w'.replicas && Opens(key)
      ensures NodeKept(g, f, w', i)
    {
      assert NodeKept(g, f, w, i);
      if !x.e.FaultySigns? && i == A.At(g, x.e) {
        ActorOk(g, f, w, x, w', i);
      }
    }
  }

  /** The consensus part of a run. */
  lemma {:induction false} SysRun(g: A.Config, f: B.Config, xs: seq<Input>, ws: seq<World>, n: nat)
    requires A.ConfigOk(g) && g.exact && B.ConfigOk(f) && Run(g, f, xs, ws) && n <= |xs|
    ensures A.SysOk(g, ws[n].sys)
  {
    if n == 0 {
      A.RunOk(g, [], [A.Initial(g)], 0);
    } else {
      SysRun(g, f, xs, ws, n - 1);
      assert StepAt(g, f, xs, ws, n - 1);
      A.NextOk(g, ws[n - 1].sys, xs[n - 1].e);
    }
  }

  lemma {:induction false} RunOk(g: A.Config, f: B.Config, xs: seq<Input>, ws: seq<World>, n: nat)
    requires A.ConfigOk(g) && g.exact && B.ConfigOk(f) && Run(g, f, xs, ws) && n <= |xs|
    ensures Kept(g, f, ws[n])
  {
    if n == 0 {
      BeginKept(g, f);
    } else {
      RunOk(g, f, xs, ws, n - 1);
      OneKept(g, f, xs, ws, n - 1);
    }
  }

  lemma BeginKept(g: A.Config, f: B.Config)
    ensures Kept(g, f, Begin(g))
  {
    assert forall i :: i in A.Initial(g).nodes ==> A.Initial(g).nodes[i] == Start(i);
  }

  lemma OneKept(g: A.Config, f: B.Config, xs: seq<Input>, ws: seq<World>, n: nat)
    requires A.ConfigOk(g) && g.exact && B.ConfigOk(f) && Run(g, f, xs, ws) && n < |xs| && Kept(g, f, ws[n])
    ensures Kept(g, f, ws[n + 1])
  {
    SysRun(g, f, xs, ws, n);
    assert StepAt(g, f, xs, ws, n);
    StepKept(g, f, ws[n], xs[n], ws[n + 1]);
  }

  /**
    Replication over every run: what a correct node has settled is the result of executing its own
    blocks from the empty state on; correct nodes agree on it at every height both have reached,
    even where the bodies they executed differ; and a validator's database is what it has settled.
   */
  lemma Replicated(g: A.Config, f: B.Config, xs: seq<Input>, ws: seq<World>, n: nat, i: nat, j: nat, k: nat)
    requires A.ConfigOk(g) && g.exact && B.ConfigOk(f) && Run(g, f, xs, ws) && n <= |xs|
    requires i in ws[n].sys.nodes && j in ws[n].sys.nodes
    requires k <= |ws[n].sys.nodes[i].committed| && k <= |ws[n].sys.nodes[j].committed|
    ensures i in ws[n].replicas && j in ws[n].replicas
    ensures Settled(f, ws[n].sys.nodes[i], ws[n].replicas[i], i == g.leader)
    ensures Settled(f, ws[n].sys.nodes[j], ws[n].replicas[j], j == g.leader)
    ensures Same(f, ws[n].sys.nodes[i], ws[n].replicas[i], ws[n].sys.nodes[j], ws[n].replicas[j], k)
  {
    RunOk(g, f, xs, ws, n);
    SysRun(g, f, xs, ws, n);
    var w := ws[n];
    assert Opens(0) && NodeKept(g, f, w, i) && NodeKept(g, f, w, j);
    PrefixesAgree(g, w.sys, i, j);
    SameAt(f, w.sys.nodes[i], w.replicas[i], w.sys.nodes[j], w.replicas[j], k);
  }

  ghost predicate Settled(f: B.Config, s: State, r: Replica, leads: bool) {
    && Rooted(f, s.committed, r.bodies) && r.settled == Folded(f, s.committed, r.bodies)
    && (!leads ==> r.accounts == r.settled)
  }

  /** The accounts after k blocks are the same at two nodes, and so is what both have settled at one length. */
  ghost predicate Same(f: B.Config, s: State, r: Replica, t: State, q: Replica, k: nat)
    requires k <= |s.committed| == |r.bodies| && k <= |t.committed| == |q.bodies| && AllOk(r.bodies) && AllOk(q.bodies)
  {
    && s.committed[..k] == t.committed[..k]
    && Folded(f, s.committed[..k], r.bodies[..k]) == Folded(f, t.committed[..k], q.bodies[..k])
    && (|s.committed| == |t.committed| ==> r.settled == q.settled)
  }

  lemma SameAt(f: B.Config, s: State, r: Replica, t: State, q: Replica, k: nat)
    requires Rooted(f, s.committed, r.bodies) && r.settled == Folded(f, s.committed, r.bodies)
    requires Rooted(f, t.committed, q.bodies) && q.settled == Folded(f, t.committed, q.bodies)
    requires forall m :: 0 <= m < |s.committed| && m < |t.committed| ==> s.committed[m] == t.committed[m]
    requires k <= |s.committed| && k <= |t.committed|
    ensures Same(f, s, r, t, q, k)
  {
    FoldsAgree(f, s.committed, r.bodies, t.committed, q.bodies, k);
    if |s.committed| == |t.committed| {
      var n := |s.committed|;
      FoldsAgree(f, s.committed, r.bodies, t.committed, q.bodies, n);
      assert s.committed[..n] == s.committed && t.committed[..n] == t.committed;
      assert r.bodies[..n] == r.bodies && q.bodies[..n] == q.bodies;
    }
  }

  lemma PrefixesAgree(g: A.Config, y: A.Sys, i: nat, j: nat)
    requires A.ConfigOk(g) && A.SysOk(g, y) && i in y.nodes && j in y.nodes
    ensures var a, b := y.nodes[i].committed, y.nodes[j].committed;
            forall m :: 0 <= m < |a| && m < |b| ==> a[m] == b[m]
  {
    var s, t := y.nodes[i], y.nodes[j];
    assert A.RoleOk(g, s, y.signed) && A.RoleOk(g, t, y.signed);
    forall m | 0 <= m < |s.committed| && m < |t.committed|
      ensures s.committed[m] == t.committed[m]
    {
      A.SameBlock(g, y, s.committed[m], s.certs[m], t.committed[m], t.certs[m]);
    }
  }

  lemma FoldsAgree(f: B.Config, a: seq<Block>, p: seq<Body>, b: seq<Block>, q: seq<Body>, k: nat)
    requires Rooted(f, a, p) && Rooted(f, b, q) && k <= |a| && k <= |b|
    requires forall m :: 0 <= m < |a| && m < |b| ==> a[m] == b[m]
    ensures a[..k] == b[..k] && Folded(f, a[..k], p[..k]) == Folded(f, b[..k], q[..k])
  {
    if k > 0 {
      assert RootedAt(f, a, p, k) && RootedAt(f, b, q, k);
      assert a[k - 1] == b[k - 1];
      B.StateRootsAgree(a[k - 1].payload.stateRoot, Folded(f, a[..k], p[..k]),
                        b[k - 1].payload.stateRoot, Folded(f, b[..k], q[..k]));
    }
  }
}
