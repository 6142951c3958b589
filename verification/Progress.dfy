/**
  That nodes do move on: exactly which messages make a validator vote and commit, exactly which vote
  makes the leader go on, and fault-free runs that commit any number of blocks.
 */
module Progress {
  import opened Encoding
  import opened Rlp
  import opened Bft
  import opened Guarantees
  import opened Leading
  import opened Agreement

  // ----- validators

  /** The block continues the chain: the next height, on top of the last block. */
  ghost predicate Continues(bs: seq<Block>, b: Block) {
    b.height == |bs| && (|bs| > 0 ==> b.prev == HashOf(bs[|bs| - 1]))
  }

  /** Between blocks: nothing has been adopted since the last commit. */
  predicate Idle(s: State) {
    s.phase.stage == Init || s.phase.stage == Commit
  }

  /** The first member of the message's bitmap has signed the block. */
  predicate WellSigned(m: Message, signed: set<Sig>) {
    && m.bits.keys != {}
    && var x := Sig(First(m.bits.keys), PrepareTag, HashOf(m.block));
       m.sig == multiset{x} && x in signed
  }

  /**
    Whether it adopts and signs the block: exactly if it is between blocks, and the block continues its
    chain, is well signed and has passed the check of its contents.
   */
  ghost predicate Prepares(s: State, r: Reaction, m: Message, signed: set<Sig>, contentOk: bool) {
    var b, own := m.block, Sig(s.id, PrepareTag, HashOf(m.block));
    && (Idle(s) && Continues(s.committed, b) && WellSigned(m, signed) && contentOk
        <==> own in r.sigs && r.state.current == Some(b) && r.state.phase == Phase(b.height, Prepare))
    && (own in r.sigs ==> !r.state.halted && r.state.committed == s.committed && r.sigs == {own})
    && (own !in r.sigs ==> r.sigs == {} && (r.state == s || r.state == s.(halted := true)))
  }

  lemma {:induction false} PrepareExact(s: State, c: Committee, m: Message, signed: set<Sig>, contentOk: bool)
    requires ValidatorOk(s, c, signed) && !s.halted
    ensures Prepares(s, OnPrepare(s, c, m, signed, contentOk), m, signed, contentOk)
  {
  }

  /** A quorum has signed the current block, and the message has exactly its signatures. */
  predicate QuorumFor(s: State, c: Committee, m: Message, signed: set<Sig>, tag: Tag) {
    && s.current == Some(m.block) && |m.bits.keys| >= Threshold(c)
    && m.sig == SigsOf(m.bits.keys, tag, HashOf(m.block)) && SignedBy(signed, c, m.bits.keys, tag, HashOf(m.block))
  }

  /** Whether it signs its current block for precommit: exactly on a quorum's prepare signatures. */
  ghost predicate Precommits(s: State, r: Reaction, c: Committee, m: Message, signed: set<Sig>) {
    var own := Sig(s.id, PrecommitTag, HashOf(m.block));
    && (s.phase.stage == Prepare && QuorumFor(s, c, m, signed, PrepareTag)
        <==> own in r.sigs && r.state.phase == Phase(m.block.height, Precommit))
    && (own in r.sigs ==> && !r.state.halted && r.state.committed == s.committed
                          && r.state.current == s.current && r.sigs == {own})
    && (own !in r.sigs ==> r.sigs == {} && (r.state == s || r.state == s.(halted := true)))
  }

  lemma {:induction false} PrecommitExact(s: State, c: Committee, m: Message, signed: set<Sig>)
    requires ValidatorOk(s, c, signed) && !s.halted
    ensures Precommits(s, OnPrecommit(s, c, m, signed), c, m, signed)
  {
  }

  /** Whether it commits its current block, with the certificate: exactly on a quorum's precommit signatures. */
  ghost predicate Commits(s: State, r: Reaction, c: Committee, m: Message, signed: set<Sig>) {
    var own := Sig(s.id, CommitTag, HashOf(m.block));
    && ((s.phase.stage == Prepare || s.phase.stage == Precommit) && QuorumFor(s, c, m, signed, PrecommitTag)
        <==> own in r.sigs && r.state.committed == s.committed + [m.block])
    && (own in r.sigs ==> && !r.state.halted && r.state.certs == s.certs + [Tally(m.bits, m.sig)]
                          && r.state.current == s.current && r.sigs == {own}
                          && r.state.phase == Phase(m.block.height, Commit))
    && (own !in r.sigs ==> r.sigs == {} && (r.state == s || r.state == s.(halted := true)))
  }

  lemma {:induction false} CommitExact(s: State, c: Committee, m: Message, signed: set<Sig>)
    requires ValidatorOk(s, c, signed) && !s.halted
    ensures Commits(s, OnCommit(s, c, m, signed), c, m, signed)
  {
  }

  /** A proposal stops a validator exactly if it would be looked at and names nobody. */
  lemma {:induction false} PrepareStops(s: State, c: Committee, m: Message, signed: set<Sig>, contentOk: bool)
    requires ValidatorOk(s, c, signed) && !s.halted
    ensures OnPrepare(s, c, m, signed, contentOk).state.halted <==>
            && m.bits.keys == {}
            && if Idle(s) then Continues(s.committed, m.block)
               else m.block.height == |s.committed| + 1 && m.block.prev == s.lastHash
  {
  }

  /** The others stop it exactly if they come for the first block before its proposal. */
  lemma {:induction false} LaterStops(s: State, c: Committee, m: Message, signed: set<Sig>)
    requires ValidatorOk(s, c, signed) && !s.halted
    ensures OnPrecommit(s, c, m, signed).state.halted <==> s.current.None? && m.block.height == 0
    ensures OnCommit(s, c, m, signed).state.halted <==> s.current.None? && m.block.height == 0
  {
  }

  // ----- the leader

  /** The members of the tally once a vote has been counted. */
  function Voters(s: State, m: Message, stage: Stage): set<nat>
    requires TallyAt(s, stage).Some?
  {
    TallyAt(s, stage).value.bits.keys + m.bits.keys
  }

  /** A new tally has the node's own vote only. */
  predicate Solo(id: nat, t: Option<Tally>) {
    t.Some? && t.value.bits.keys == {id}
  }

  /** What the leader does when its phase is complete. */
  ghost predicate Moved(s: State, r: Reaction, c: Committee, stage: Stage, payload: Payload)
    requires s.current.Some?
  {
    var b, t := s.current.value, r.state;
    match stage
    case Init => false
    case Prepare =>
      && t.phase == Phase(b.height, Precommit) && r.sigs == {Sig(s.id, PrecommitTag, HashOf(b))}
      && t.current == Some(b) && t.committed == s.committed && Solo(s.id, t.precommit)
    case Precommit =>
      && t.phase == Phase(b.height, Commit) && r.sigs == {Sig(s.id, CommitTag, HashOf(b))}
      && t.current == Some(b) && t.committed == s.committed + [b] && Solo(s.id, t.commit)
    case Commit =>
      && |s.committed| > 0 && b == s.committed[|s.committed| - 1]
      && var next := Block(|s.committed|, HashOf(b), payload);
         && t.phase == Phase(next.height, Prepare) && r.sigs == {Sig(s.id, PrepareTag, HashOf(next))}
         && t.current == Some(next) && t.committed == s.committed && Solo(s.id, t.prepare)
  }

  /**
    A counted vote is stored with its members, and it makes the leader go on, each phase in its own
    way, exactly if with them the tally reaches the threshold. Other votes do nothing or stop it.
   */
  ghost predicate Answers(s: State, r: Reaction, c: Committee, m: Message, stage: Stage, signed: set<Sig>,
                          payload: Payload)
  {
    if !Counts(s, c, m, stage, signed) then r.sigs == {} && (r.state == s || r.state == s.(halted := true))
    else if |Voters(s, m, stage)| >= Threshold(c) then
      !r.state.halted && Moved(s, r, c, stage, payload) && Fires(s, r.state, c)
    else
      && !r.state.halted && r.sigs == {} && r.state.phase == s.phase && r.state.committed == s.committed
      && r.state.current == s.current && TallyAt(r.state, stage).Some?
      && TallyAt(r.state, stage).value.bits.keys == Voters(s, m, stage)
  }

  lemma {:induction false} VoteMoves(s: State, c: Committee, m: Message, stage: Stage, signed: set<Sig>,
      payload: Payload)
    requires LeaderOk(s, c, signed) && stage != Init
    ensures Answers(s, OnVote(s, c, m, stage, signed, payload), c, m, stage, signed, payload)
  {
    VoteExact(s, c, m, stage, signed, payload);
    if Counts(s, c, m, stage, signed) {
      CountedVote(s, c, m, stage, signed);
      var u := SetTally(s, stage, CountVote(s, c, m, stage, signed).tally);
      if |Voters(s, m, stage)| >= Threshold(c) {
        FullMoves(s, u, c, stage, signed, payload);
      }
    }
  }

  lemma {:induction false} CountedVote(s: State, c: Committee, m: Message, stage: Stage, signed: set<Sig>)
    requires LeaderOk(s, c, signed) && stage != Init && Counts(s, c, m, stage, signed)
    ensures CountVote(s, c, m, stage, signed).Counted?
    ensures CountVote(s, c, m, stage, signed).tally.bits.keys == Voters(s, m, stage)
  {
  }

  lemma {:induction false} FullMoves(s: State, u: State, c: Committee, stage: Stage, signed: set<Sig>, payload: Payload)
    requires LeaderOk(s, c, signed) && stage == s.phase.stage != Init && TallyAt(u, stage).Some?
    requires u == SetTally(s, stage, TallyAt(u, stage).value) && Enough(c, TallyAt(u, stage))
    ensures s.current.Some? && u.current.Some?
    ensures var r := MoveOn(u, c, stage, payload);
            Moved(s, r, c, stage, payload) && Fires(s, r.state, c) && r.state.halted == s.halted
  {
  }

  /** The first proposal. */
  lemma {:induction false} StartMoves(s: State, c: Committee, signed: set<Sig>, payload: Payload)
    requires LeaderOk(s, c, signed) && s.current.None?
    ensures var r, b := Propose(s, c, payload), Block(0, ZeroHash, payload);
            && r.state.current == Some(b) && r.state.phase == Phase(0, Prepare) && r.state.committed == []
            && Solo(s.id, r.state.prepare)
            && r.sigs == {Sig(s.id, PrepareTag, HashOf(b))}
  {
  }

  /** A committee of one never gets anywhere: its own signature completes the tally, and no vote is counted. */
  lemma {:induction false} AloneIsStuck(s: State, c: Committee, m: Message, stage: Stage, signed: set<Sig>,
      payload: Payload)
    requires LeaderOk(s, c, signed) && c.n == 1 && stage != Init
    ensures OnVote(s, c, m, stage, signed, payload).state in {s, s.(halted := true)}
  {
    VoteExact(s, c, m, stage, signed, payload);
  }

  // ----- runs without faults

  /** Nobody is faulty, and the leader is not alone. */
  ghost predicate Healthy(g: Config) {
    ConfigOk(g) && g.exact && g.faulty == {} && g.c.n >= 2
  }

  /** A validator that has done its part for b, on top of bs, up to a phase. */
  ghost predicate FollowerAt(s: State, bs: seq<Block>, b: Block, stage: Stage) {
    && !s.halted
    && match stage
       case Init => Idle(s) && s.committed == bs
       case Commit => s.phase == Phase(|bs|, Commit) && s.current == Some(b) && s.committed == bs + [b]
       case _ => s.phase == Phase(|bs|, stage) && s.current == Some(b) && s.committed == bs
  }

  /** The leader when it has just entered a phase: its own vote is the only one. */
  ghost predicate LeaderAt(g: Config, y: Sys, bs: seq<Block>, b: Block, stage: Stage, voters: set<nat>) {
    && g.leader in y.nodes && stage != Init && Continues(bs, b)
    && var s := y.nodes[g.leader];
       && !s.halted && s.current == Some(b) && s.phase == Phase(|bs|, stage)
       && s.committed == (if stage == Commit then bs + [b] else bs)
       && TallyAt(s, stage).Some? && TallyAt(s, stage).value.bits.keys == voters
  }

  function Before(stage: Stage): Stage {
    match stage
    case Init => Init
    case Prepare => Init
    case Precommit => Prepare
    case Commit => Precommit
  }

  /** Validators below k have reached the phase and signed, the others are one phase behind. */
  ghost predicate Followers(g: Config, y: Sys, bs: seq<Block>, b: Block, stage: Stage, k: nat) {
    forall i :: i in y.nodes && i != g.leader ==>
      && FollowerAt(y.nodes[i], bs, b, if i < k then stage else Before(stage))
      && (i < k ==> Sig(i, TagAt(stage), HashOf(b)) in y.signed)
  }

  /** What the leader sends out on entering a phase. */
  ghost predicate Notice(g: Config, m: Message, b: Block, stage: Stage, signed: set<Sig>) {
    && m.block == b
    && match stage
       case Init => false
       case Prepare => WellSigned(m, signed)
       case Precommit => Certified(g.c, m, PrepareTag, signed)
       case Commit => Certified(g.c, m, PrecommitTag, signed)
  }

  ghost predicate Certified(c: Committee, m: Message, tag: Tag, signed: set<Sig>) {
    && |m.bits.keys| >= Threshold(c) && m.sig == SigsOf(m.bits.keys, tag, HashOf(m.block))
    && SignedBy(signed, c, m.bits.keys, tag, HashOf(m.block))
  }

  function NoticeTo(i: nat, m: Message, stage: Stage): Event
    requires stage != Init
  {
    match stage
    case Prepare => PrepareMsg(i, m, true)
    case Precommit => PrecommitMsg(i, m)
    case Commit => CommitMsg(i, m)
  }

  lemma {:induction false} OneNoticed(g: Config, y: Sys, m: Message, bs: seq<Block>, b: Block, stage: Stage, i: nat)
    requires i in y.nodes && i != g.leader && stage != Init && y.nodes[i].id == i
    requires ValidatorOk(y.nodes[i], g.c, y.signed)
    requires Continues(bs, b) && Notice(g, m, b, stage, y.signed)
    requires FollowerAt(y.nodes[i], bs, b, Before(stage))
    ensures Allowed(g, y, NoticeTo(i, m, stage))
    ensures var z := Next(g, y, NoticeTo(i, m, stage));
            && FollowerAt(z.nodes[i], bs, b, stage) && Sig(i, TagAt(stage), HashOf(b)) in z.signed
            && z.nodes == y.nodes[i := z.nodes[i]] && y.signed <= z.signed
  {
    var s := y.nodes[i];
    match stage
    case Prepare => PrepareExact(s, g.c, m, y.signed, true);
    case Precommit => PrecommitExact(s, g.c, m, y.signed);
    case Commit => CommitExact(s, g.c, m, y.signed);
  }

  lemma ReachedNode(g: Config, y: Sys, i: nat)
    requires Healthy(g) && Reached(g, y) && i < g.c.n
    ensures i in y.nodes && y.nodes[i].id == i && y.nodes.Keys == Members(g.c)
    ensures if i == g.leader then LeaderOk(y.nodes[i], g.c, y.signed) else ValidatorOk(y.nodes[i], g.c, y.signed)
  {
    var es, ys :| Run(g, es, ys) && ys[|es|] == y;
    RunOk(g, es, ys, |es|);
    assert Member(g.c, i);
    assert i in y.nodes && RoleOk(g, y.nodes[i], y.signed);
  }

  lemma FollowersStep(g: Config, y: Sys, z: Sys, bs: seq<Block>, b: Block, stage: Stage, k: nat)
    requires Followers(g, y, bs, b, stage, k) && k in z.nodes && z.nodes == y.nodes[k := z.nodes[k]]
    requires FollowerAt(z.nodes[k], bs, b, stage) && Sig(k, TagAt(stage), HashOf(b)) in z.signed
    requires y.signed <= z.signed
    ensures Followers(g, z, bs, b, stage, k + 1)
  {
  }

  lemma NoticeMore(g: Config, m: Message, b: Block, stage: Stage, signed: set<Sig>, more: set<Sig>)
    requires Notice(g, m, b, stage, signed) && signed <= more
    ensures Notice(g, m, b, stage, more)
  {
  }

  lemma NoticeReached(g: Config, y: Sys, m: Message, bs: seq<Block>, b: Block, stage: Stage, i: nat) returns (z: Sys)
    requires Healthy(g) && Reached(g, y) && stage != Init && i < g.c.n && i != g.leader
    requires Continues(bs, b) && Notice(g, m, b, stage, y.signed) && Followers(g, y, bs, b, stage, i)
    ensures Reached(g, z) && Followers(g, z, bs, b, stage, i + 1) && y.signed <= z.signed
    ensures g.leader in y.nodes && g.leader in z.nodes && z.nodes[g.leader] == y.nodes[g.leader]
  {
    var e := NoticeTo(i, m, stage);
    ReachedNode(g, y, i);
    ReachedNode(g, y, g.leader);
    OneNoticed(g, y, m, bs, b, stage, i);
    ReachNext(g, y, e);
    z := Next(g, y, e);
    FollowersStep(g, y, z, bs, b, stage, i);
  }

  /** The notice reaches one validator after the other. */
  lemma {:induction false} AllNoticed(g: Config, x: Sys, m: Message, bs: seq<Block>, b: Block, stage: Stage, k: nat)
      returns (y: Sys)
    requires Healthy(g) && Reached(g, x) && stage != Init && k <= g.c.n
    requires Continues(bs, b) && Notice(g, m, b, stage, x.signed) && Followers(g, x, bs, b, stage, k)
    ensures Reached(g, y) && Followers(g, y, bs, b, stage, g.c.n) && x.signed <= y.signed
    ensures g.leader in x.nodes && g.leader in y.nodes && y.nodes[g.leader] == x.nodes[g.leader]
    decreases g.c.n - k
  {
    if k == g.c.n {
      ReachedNode(g, x, g.leader);
      y := x;
    } else if k == g.leader {
      y := AllNoticed(g, x, m, bs, b, stage, k + 1);
    } else {
      var z := NoticeReached(g, x, m, bs, b, stage, k);
      NoticeMore(g, m, b, stage, x.signed, z.signed);
      y := AllNoticed(g, z, m, bs, b, stage, k + 1);
    }
  }

  // ----- the votes

  function VoteOf(c: Committee, j: nat, b: Block, stage: Stage): Message {
    Message(b, Bits({j}, ByteSize(c)), multiset{Sig(j, TagAt(stage), HashOf(b))})
  }

  /** What the leader has after the phase. */
  ghost predicate LeaderPast(g: Config, y: Sys, bs: seq<Block>, b: Block, stage: Stage, payload: Payload) {
    match stage
    case Init => false
    case Prepare => LeaderAt(g, y, bs, b, Precommit, {g.leader})
    case Precommit => LeaderAt(g, y, bs, b, Commit, {g.leader})
    case Commit => LeaderAt(g, y, bs + [b], Block(|bs| + 1, HashOf(b), payload), Prepare, {g.leader})
  }

  /** The leader and the members below k. */
  function Upto(g: Config, k: nat): set<nat> {
    {g.leader} + set j | 0 <= j < k && Member(g.c, j)
  }

  lemma VoteCounts(g: Config, y: Sys, bs: seq<Block>, b: Block, stage: Stage, voters: set<nat>, j: nat)
    requires Healthy(g) && LeaderAt(g, y, bs, b, stage, voters) && j !in voters
    requires |voters| < Threshold(g.c) && Sig(j, TagAt(stage), HashOf(b)) in y.signed
    requires LeaderOk(y.nodes[g.leader], g.c, y.signed)
    ensures Counts(y.nodes[g.leader], g.c, VoteOf(g.c, j, b, stage), stage, y.signed)
    ensures AddsFirst(y.nodes[g.leader], g.c, VoteOf(g.c, j, b, stage), stage, y.signed)
  {
    assert First({j}) == j;
    OneKeyAdds(y.nodes[g.leader], g.c, VoteOf(g.c, j, b, stage), stage, y.signed);
    assert Tallied(y.nodes[g.leader], g.c, y.signed, TallyAt(y.nodes[g.leader], stage), TagAt(stage));
    assert j in NewKeys(TallyAt(y.nodes[g.leader], stage).value.bits, VoteOf(g.c, j, b, stage).bits);
  }

  lemma MovedPast(g: Config, y: Sys, z: Sys, bs: seq<Block>, b: Block, stage: Stage, voters: set<nat>, r: Reaction,
      payload: Payload)
    requires LeaderAt(g, y, bs, b, stage, voters) && g.leader in z.nodes && z.nodes[g.leader] == r.state
    requires y.nodes[g.leader].id == g.leader && !r.state.halted
    requires Moved(y.nodes[g.leader], r, g.c, stage, payload)
    ensures LeaderPast(g, z, bs, b, stage, payload)
  {
  }

  lemma UptoMore(g: Config, j: nat)
    requires j < g.c.n
    ensures Upto(g, j + 1) == Upto(g, j) + {j} && (j == g.leader ==> Upto(g, j + 1) == Upto(g, j))
    ensures j != g.leader ==> j !in Upto(g, j)
  {
    assert Member(g.c, j);
  }

  /** With everybody's vote the tally is full. */
  lemma UptoAll(g: Config)
    requires ConfigOk(g)
    ensures |Upto(g, g.c.n)| >= Threshold(g.c)
  {
    MembersSize(g.c);
    assert Member(g.c, g.leader);
    assert Upto(g, g.c.n) == Members(g.c);
  }

  /** What a vote does to the leader. */
  lemma LeaderVoted(g: Config, y: Sys, bs: seq<Block>, b: Block, stage: Stage, voters: set<nat>, j: nat,
      payload: Payload) returns (r: Reaction)
    requires Healthy(g) && LeaderAt(g, y, bs, b, stage, voters) && j !in voters && |voters| < Threshold(g.c)
    requires Sig(j, TagAt(stage), HashOf(b)) in y.signed
    requires LeaderOk(y.nodes[g.leader], g.c, y.signed) && y.nodes[g.leader].id == g.leader
    ensures r == OnVote(y.nodes[g.leader], g.c, VoteOf(g.c, j, b, stage), stage, y.signed, payload)
    ensures AddsFirst(y.nodes[g.leader], g.c, VoteOf(g.c, j, b, stage), stage, y.signed)
    ensures forall z: Sys :: g.leader in z.nodes && z.nodes[g.leader] == r.state ==>
              if |voters + {j}| < Threshold(g.c) then LeaderAt(g, z, bs, b, stage, voters + {j})
              else LeaderPast(g, z, bs, b, stage, payload)
  {
    var s, m := y.nodes[g.leader], VoteOf(g.c, j, b, stage);
    r := OnVote(s, g.c, m, stage, y.signed, payload);
    VoteCounts(g, y, bs, b, stage, voters, j);
    VoteMoves(s, g.c, m, stage, y.signed, payload);
    assert Voters(s, m, stage) == voters + {j};
    forall z: Sys | g.leader in z.nodes && z.nodes[g.leader] == r.state && |voters + {j}| >= Threshold(g.c)
      ensures LeaderPast(g, z, bs, b, stage, payload)
    {
      MovedPast(g, y, z, bs, b, stage, voters, r, payload);
    }
  }

  lemma OneVoted(g: Config, y: Sys, bs: seq<Block>, b: Block, stage: Stage, j: nat, payload: Payload) returns (z: Sys)
    requires Healthy(g) && Reached(g, y) && LeaderAt(g, y, bs, b, stage, Upto(g, j)) && j < g.c.n && j != g.leader
    requires |Upto(g, j)| < Threshold(g.c) && Sig(j, TagAt(stage), HashOf(b)) in y.signed
    ensures Reached(g, z) && g.leader in z.nodes && z.nodes == y.nodes[g.leader := z.nodes[g.leader]]
    ensures y.signed <= z.signed
    ensures if |Upto(g, j + 1)| < Threshold(g.c) then LeaderAt(g, z, bs, b, stage, Upto(g, j + 1))
        else LeaderPast(g, z, bs, b, stage, payload)
  {
    var e := Vote(stage, VoteOf(g.c, j, b, stage), payload);
    ReachedNode(g, y, g.leader);
    UptoMore(g, j);
    var r := LeaderVoted(g, y, bs, b, stage, Upto(g, j), j, payload);
    VoteReaches(g, y, e, r);
    z := Next(g, y, e);
  }

  lemma VoteReaches(g: Config, y: Sys, e: Event, r: Reaction)
    requires Reached(g, y) && g.leader in y.nodes && e.Vote? && e.stage != Init
    requires AddsFirst(y.nodes[g.leader], g.c, e.m, e.stage, y.signed)
    requires r == OnVote(y.nodes[g.leader], g.c, e.m, e.stage, y.signed, e.payload)
    ensures At(g, e) == g.leader && Reached(g, Next(g, y, e))
    ensures Next(g, y, e) == Sys(y.nodes[g.leader := r.state], y.signed + r.sigs)
  {
    ReachNext(g, y, e);
  }

  /** The votes of all validators, one after the other, as long as they are needed. */
  lemma {:induction false} AllVoted(g: Config, x: Sys, bs: seq<Block>, b: Block, stage: Stage, k: nat, payload: Payload)
      returns (y: Sys)
    requires Healthy(g) && Reached(g, x) && k <= g.c.n && LeaderAt(g, x, bs, b, stage, Upto(g, k))
    requires |Upto(g, k)| < Threshold(g.c)
    requires forall j :: 0 <= j < g.c.n && j != g.leader ==> Sig(j, TagAt(stage), HashOf(b)) in x.signed
    ensures Reached(g, y) && g.leader in y.nodes && y.nodes == x.nodes[g.leader := y.nodes[g.leader]]
    ensures x.signed <= y.signed && LeaderPast(g, y, bs, b, stage, payload)
    decreases g.c.n - k
  {
    if k == g.c.n {
      UptoAll(g);
      assert false;
    }
    UptoMore(g, k);
    if k == g.leader {
      y := AllVoted(g, x, bs, b, stage, k + 1, payload);
    } else {
      y := OneVoted(g, x, bs, b, stage, k, payload);
      if |Upto(g, k + 1)| < Threshold(g.c) {
        y := AllVoted(g, y, bs, b, stage, k + 1, payload);
      }
    }
  }

  // ----- one block after the other

  /** On entering a phase the leader has what the others need to follow. */
  lemma LeaderNotice(g: Config, y: Sys, bs: seq<Block>, b: Block, stage: Stage) returns (m: Message)
    requires LeaderAt(g, y, bs, b, stage, {g.leader}) && LeaderOk(y.nodes[g.leader], g.c, y.signed)
    requires y.nodes[g.leader].id == g.leader
    ensures Notice(g, m, b, stage, y.signed)
  {
    var s := y.nodes[g.leader];
    match stage
    case Prepare =>
      m := VoteOf(g.c, g.leader, b, Prepare);
      assert First({g.leader}) == g.leader;
    case Precommit => m := Message(b, s.prepare.value.bits, s.prepare.value.sig);
    case Commit => m := Message(b, s.precommit.value.bits, s.precommit.value.sig);
  }

  lemma FollowersKept(g: Config, x: Sys, y: Sys, bs: seq<Block>, b: Block, stage: Stage, k: nat)
    requires Followers(g, x, bs, b, stage, k) && x.signed <= y.signed
    requires g.leader in y.nodes && y.nodes == x.nodes[g.leader := y.nodes[g.leader]]
    ensures Followers(g, y, bs, b, stage, k)
  {
  }

  /** A whole phase: the leader's notice, and the votes on it. */
  lemma OnePhase(g: Config, x: Sys, bs: seq<Block>, b: Block, stage: Stage, payload: Payload) returns (y: Sys)
    requires Healthy(g) && Reached(g, x) && LeaderAt(g, x, bs, b, stage, {g.leader})
    requires Followers(g, x, bs, b, stage, 0)
    ensures Reached(g, y) && LeaderPast(g, y, bs, b, stage, payload) && Followers(g, y, bs, b, stage, g.c.n)
  {
    ReachedNode(g, x, g.leader);
    var m := LeaderNotice(g, x, bs, b, stage);
    var z := AllNoticed(g, x, m, bs, b, stage, 0);
    AllSigned(g, z, bs, b, stage);
    assert Upto(g, 0) == {g.leader};
    y := AllVoted(g, z, bs, b, stage, 0, payload);
    FollowersKept(g, z, y, bs, b, stage, g.c.n);
  }

  lemma AllSigned(g: Config, y: Sys, bs: seq<Block>, b: Block, stage: Stage)
    requires Healthy(g) && Reached(g, y) && Followers(g, y, bs, b, stage, g.c.n)
    ensures forall j :: 0 <= j < g.c.n && j != g.leader ==> Sig(j, TagAt(stage), HashOf(b)) in y.signed
  {
    forall j | 0 <= j < g.c.n && j != g.leader
      ensures Sig(j, TagAt(stage), HashOf(b)) in y.signed
    {
      ReachedNode(g, y, j);
    }
  }

  lemma NextFollowers(g: Config, y: Sys, bs: seq<Block>, b: Block, stage: Stage)
    requires Healthy(g) && Reached(g, y) && Followers(g, y, bs, b, stage, g.c.n)
    ensures stage == Prepare ==> Followers(g, y, bs, b, Precommit, 0)
    ensures stage == Precommit ==> Followers(g, y, bs, b, Commit, 0)
    ensures stage == Commit ==> forall n :: Followers(g, y, bs + [b], n, Prepare, 0)
  {
    ReachedNode(g, y, g.leader);
    forall i | i in y.nodes && i != g.leader
      ensures FollowerAt(y.nodes[i], bs, b, stage)
    {
      assert i in Members(g.c);
    }
  }

  /** From the proposal of a block to that of the next. */
  lemma OneBlock(g: Config, x: Sys, bs: seq<Block>, b: Block, payload: Payload) returns (y: Sys)
    requires Healthy(g) && Reached(g, x) && LeaderAt(g, x, bs, b, Prepare, {g.leader})
    requires Followers(g, x, bs, b, Prepare, 0)
    ensures var next := Block(|bs| + 1, HashOf(b), payload);
            && Reached(g, y) && LeaderAt(g, y, bs + [b], next, Prepare, {g.leader})
            && Followers(g, y, bs + [b], next, Prepare, 0)
  {
    y := OnePhase(g, x, bs, b, Prepare, payload);
    NextFollowers(g, y, bs, b, Prepare);
    y := OnePhase(g, y, bs, b, Precommit, payload);
    NextFollowers(g, y, bs, b, Precommit);
    y := OnePhase(g, y, bs, b, Commit, payload);
    NextFollowers(g, y, bs, b, Commit);
  }

  /** The chain of blocks with given contents. */
  function ChainOf(ps: seq<Payload>): seq<Block> {
    if |ps| == 0 then []
    else
      var bs := ChainOf(ps[..|ps| - 1]);
      bs + [NewBlock(if |bs| == 0 then None else Some(bs[|bs| - 1]), ps[|ps| - 1])]
  }

  /** It has the contents in order, and is linked. */
  lemma {:induction false} ChainOfContents(ps: seq<Payload>)
    ensures |ChainOf(ps)| == |ps| && Chain(ChainOf(ps))
    ensures forall i :: 0 <= i < |ps| ==> ChainOf(ps)[i].payload == ps[i]
  {
    if |ps| > 0 {
      ChainOfContents(ps[..|ps| - 1]);
    }
  }

  /** All have committed the blocks before the last, which has just been proposed. */
  ghost predicate Proposed(g: Config, y: Sys, ps: seq<Payload>)
    requires |ps| > 0
  {
    var bs := ChainOf(ps);
    && |bs| == |ps| && LeaderAt(g, y, bs[..|ps| - 1], bs[|ps| - 1], Prepare, {g.leader})
    && Followers(g, y, bs[..|ps| - 1], bs[|ps| - 1], Prepare, 0)
  }

  lemma FirstProposed(g: Config, p: Payload) returns (y: Sys)
    requires Healthy(g)
    ensures Reached(g, y) && Proposed(g, y, [p])
  {
    var x := Initial(g);
    ReachInitial(g);
    ReachedNode(g, x, g.leader);
    StartMoves(x.nodes[g.leader], g.c, x.signed, p);
    ReachNext(g, x, LeaderStarts(p));
    y := Next(g, x, LeaderStarts(p));
    assert [p][..0] == [] && ChainOf([p]) == [Block(0, ZeroHash, p)];
  }

  lemma {:induction false} AllProposed(g: Config, ps: seq<Payload>) returns (y: Sys)
    requires Healthy(g) && |ps| > 0
    ensures Reached(g, y) && Proposed(g, y, ps)
    decreases |ps|
  {
    ChainOfContents(ps);
    if |ps| == 1 {
      assert ps == [ps[0]];
      y := FirstProposed(g, ps[0]);
    } else {
      var f, p := ps[..|ps| - 1], ps[|ps| - 1];
      var x := AllProposed(g, f);
      var bs := ChainOf(f);
      y := OneBlock(g, x, bs[..|f| - 1], bs[|f| - 1], p);
      assert bs[..|f| - 1] + [bs[|f| - 1]] == bs == ChainOf(ps)[..|f|];
    }
  }

  /** Without faults, some run commits any given blocks, one after the other, at every member. */
  lemma AnyChainCommits(g: Config, ps: seq<Payload>) returns (y: Sys)
    requires Healthy(g)
    ensures Reached(g, y) && y.nodes.Keys == Members(g.c)
    ensures forall i :: i in y.nodes ==> y.nodes[i].committed == ChainOf(ps)
  {
    var more := ps + [Payload(0, EMPTY_ROOT, EMPTY_ROOT, [], 0)];
    y := AllProposed(g, more);
    ReachedNode(g, y, g.leader);
    assert more[..|ps|] == ps && ChainOf(more)[..|ps|] == ChainOf(ps);
    forall i | i in y.nodes
      ensures y.nodes[i].committed == ChainOf(ps)
    {
      ReachedNode(g, y, i);
    }
  }
}
