/**
  Why votes have to name one member. The handlers merge the whole bitmap of a vote although they
  check one signature, so a single faulty member can vote for the others: the run built here ends
  with a correct leader and a correct validator that committed different blocks at height 0.
 */
module Disagreement {
  import opened Encoding
  import opened Rlp
  import opened Bft
  import opened Agreement

  // ----- four members, the first one faulty, the last one leading

  const COMMITTEE := Committee(4)
  const CONFIG := Config(COMMITTEE, 3, {0}, false)

  function Content(time: nat): Payload {
    Payload(1001, EMPTY_ROOT, EMPTY_ROOT, [], time)
  }

  function First0(time: nat): Block {
    Block(0, ZeroHash, Content(time))
  }

  const BLOCK_A := First0(0)
  const BLOCK_B := First0(1)

  /** The other three members. */
  const OTHERS: Bits := Bits({0, 1, 2}, 1)

  lemma Sizes()
    ensures Threshold(COMMITTEE) == 3 && ByteSize(COMMITTEE) == 1 && |{0, 1, 2}| == 3 && First({0, 1, 2}) == 0
    ensures |{3} + {0, 1, 2}| == 4 && Members(COMMITTEE) == {0, 1, 2, 3}
  {
    assert {3} + {0, 1, 2} == {0, 1, 2, 3};
  }

  /** One vote of the faulty member in the name of three completes a phase. */
  ghost function Forged(tag: Tag): Message {
    Message(BLOCK_A, OTHERS, multiset{Sig(0, tag, HashOf(BLOCK_A))})
  }

  lemma ForgedCounts(s: State, stage: Stage, signed: set<Sig>)
    requires stage == Prepare || stage == Precommit
    requires !s.halted && s.current == Some(BLOCK_A) && s.phase == Phase(0, stage) && TallyAt(s, stage).Some?
    requires TallyAt(s, stage).value.bits == Own(COMMITTEE, 3) && Sig(0, TagAt(stage), HashOf(BLOCK_A)) in signed
    ensures var t := Tally(Bits({3} + {0, 1, 2}, 1), TallyAt(s, stage).value.sig + Forged(TagAt(stage)).sig);
            && CountVote(s, COMMITTEE, Forged(TagAt(stage)), stage, signed) == Counted(t) && Enough(COMMITTEE, Some(t))
            && OnVote(s, COMMITTEE, Forged(TagAt(stage)), stage, signed, Content(0)) ==
                MoveOn(SetTally(s, stage, t), COMMITTEE, stage, Content(0))
  {
    Sizes();
    assert |{3}| == 1;
    assert {0, 1, 2} - {3} == {0, 1, 2};
  }

  /** The leader is made to commit BLOCK_A although no other correct member has heard of it. */
  lemma LeaderCommitsAlone() returns (y: Sys)
    ensures Reached(CONFIG, y) && y.nodes.Keys == {1, 2, 3}
    ensures y.nodes[1] == Start(1) && y.nodes[2] == Start(2) && y.nodes[3].committed == [BLOCK_A]
  {
    Sizes();
    ReachInitial(CONFIG);
    y := Initial(CONFIG);
    assert y.nodes.Keys == {1, 2, 3} && y.nodes[3] == Start(3);
    ReachNext(CONFIG, y, LeaderStarts(Content(0)));
    y := Next(CONFIG, y, LeaderStarts(Content(0)));
    y := ForgeVote(y, Prepare);
    y := ForgeVote(y, Precommit);
  }

  lemma ForgeVote(x: Sys, stage: Stage) returns (y: Sys)
    requires stage == Prepare || stage == Precommit
    requires Reached(CONFIG, x) && x.nodes.Keys == {1, 2, 3} && x.nodes[1] == Start(1) && x.nodes[2] == Start(2)
    requires var s := x.nodes[3];
             && !s.halted && s.id == 3 && s.current == Some(BLOCK_A) && s.phase == Phase(0, stage) && s.committed == []
             && TallyAt(s, stage).Some? && TallyAt(s, stage).value.bits == Own(COMMITTEE, 3)
    ensures Reached(CONFIG, y) && y.nodes.Keys == {1, 2, 3} && y.nodes[1] == Start(1) && y.nodes[2] == Start(2)
    ensures var s := y.nodes[3];
            if stage == Prepare
            then && !s.halted && s.id == 3 && s.current == Some(BLOCK_A) && s.phase == Phase(0, Precommit)
                && s.committed == []
                 && s.precommit.Some? && s.precommit.value.bits == Own(COMMITTEE, 3)
            else s.committed == [BLOCK_A]
  {
    var sig := Sig(0, TagAt(stage), HashOf(BLOCK_A));
    ReachNext(CONFIG, x, FaultySigns(sig));
    y := Next(CONFIG, x, FaultySigns(sig));
    ForgedCounts(y.nodes[3], stage, y.signed);
    var e := Vote(stage, Forged(TagAt(stage)), Content(0));
    ReachNext(CONFIG, y, e);
    y := Next(CONFIG, y, e);
  }

  // ----- the other members agree on BLOCK_B

  /** The quorum of the faulty member and the two validators. */
  ghost function Certified(tag: Tag): Message {
    Message(BLOCK_B, OTHERS, SigsOf({0, 1, 2}, tag, HashOf(BLOCK_B)))
  }

  /** What a validator is before it hears of BLOCK_B, after the proposal and after precommit. */
  ghost predicate AtStage(s: State, id: nat, stage: Stage) {
    && !s.halted && s.id == id && s.committed == []
    && if stage == Init then s == Start(id) else s.current == Some(BLOCK_B) && s.phase == Phase(0, stage)
  }

  lemma HearProposal(s: State, signed: set<Sig>)
    requires AtStage(s, s.id, Init) && Sig(0, PrepareTag, HashOf(BLOCK_B)) in signed
    ensures var m := Message(BLOCK_B, Bits({0}, 1), multiset{Sig(0, PrepareTag, HashOf(BLOCK_B))});
            var r := OnPrepare(s, COMMITTEE, m, signed, true);
            AtStage(r.state, s.id, Prepare) && r.sigs == {Sig(s.id, PrepareTag, HashOf(BLOCK_B))}
  {
    assert First({0}) == 0;
  }

  lemma HearPrecommit(s: State, signed: set<Sig>)
    requires AtStage(s, s.id, Prepare) && SignedBy(signed, COMMITTEE, {0, 1, 2}, PrepareTag, HashOf(BLOCK_B))
    ensures var r := OnPrecommit(s, COMMITTEE, Certified(PrepareTag), signed);
            AtStage(r.state, s.id, Precommit) && r.sigs == {Sig(s.id, PrecommitTag, HashOf(BLOCK_B))}
  {
    Sizes();
  }

  lemma HearCommit(s: State, signed: set<Sig>)
    requires AtStage(s, s.id, Precommit) && SignedBy(signed, COMMITTEE, {0, 1, 2}, PrecommitTag, HashOf(BLOCK_B))
    ensures OnCommit(s, COMMITTEE, Certified(PrecommitTag), signed).state.committed == [BLOCK_B]
  {
    Sizes();
  }

  ghost predicate Midway(y: Sys, one: Stage, two: Stage) {
    && Reached(CONFIG, y) && y.nodes.Keys == {1, 2, 3} && y.nodes[3].committed == [BLOCK_A]
    && AtStage(y.nodes[1], 1, one) && AtStage(y.nodes[2], 2, two)
  }

  /** The faulty member proposes BLOCK_B to both validators. */
  lemma BothPrepare(x: Sys) returns (y: Sys)
    requires Midway(x, Init, Init)
    ensures Midway(y, Prepare, Prepare) && SignedBy(y.signed, COMMITTEE, {0, 1, 2}, PrepareTag, HashOf(BLOCK_B))
  {
    var sig := Sig(0, PrepareTag, HashOf(BLOCK_B));
    var m := Message(BLOCK_B, Bits({0}, 1), multiset{sig});
    ReachNext(CONFIG, x, FaultySigns(sig));
    y := Next(CONFIG, x, FaultySigns(sig));
    HearProposal(y.nodes[1], y.signed);
    ReachNext(CONFIG, y, PrepareMsg(1, m, true));
    y := Next(CONFIG, y, PrepareMsg(1, m, true));
    HearProposal(y.nodes[2], y.signed);
    ReachNext(CONFIG, y, PrepareMsg(2, m, true));
    y := Next(CONFIG, y, PrepareMsg(2, m, true));
  }

  lemma BothPrecommit(x: Sys) returns (y: Sys)
    requires Midway(x, Prepare, Prepare) && SignedBy(x.signed, COMMITTEE, {0, 1, 2}, PrepareTag, HashOf(BLOCK_B))
    ensures Midway(y, Precommit, Precommit) && SignedBy(y.signed, COMMITTEE, {0, 1, 2}, PrecommitTag, HashOf(BLOCK_B))
  {
    var sig, m := Sig(0, PrecommitTag, HashOf(BLOCK_B)), Certified(PrepareTag);
    HearPrecommit(x.nodes[1], x.signed);
    ReachNext(CONFIG, x, PrecommitMsg(1, m));
    y := Next(CONFIG, x, PrecommitMsg(1, m));
    HearPrecommit(y.nodes[2], y.signed);
    ReachNext(CONFIG, y, PrecommitMsg(2, m));
    y := Next(CONFIG, y, PrecommitMsg(2, m));
    ReachNext(CONFIG, y, FaultySigns(sig));
    y := Next(CONFIG, y, FaultySigns(sig));
  }

  /** Different blocks at one height. */
  ghost predicate Forked(a: seq<Block>, b: seq<Block>) {
    exists k :: 0 <= k < |a| && k < |b| && a[k] != b[k]
  }

  ghost predicate Split(y: Sys) {
    exists i, j :: i in y.nodes && j in y.nodes && Forked(y.nodes[i].committed, y.nodes[j].committed)
  }

  lemma ForkReached() returns (y: Sys)
    ensures Reached(CONFIG, y) && Split(y)
  {
    y := LeaderCommitsAlone();
    y := BothPrepare(y);
    y := BothPrecommit(y);
    HearCommit(y.nodes[1], y.signed);
    var e := CommitMsg(1, Certified(PrecommitTag));
    ReachNext(CONFIG, y, e);
    y := Next(CONFIG, y, e);
    assert y.nodes[3].committed[0] != y.nodes[1].committed[0];
    assert Forked(y.nodes[3].committed, y.nodes[1].committed);
  }

  /** With votes that name several members, agreement fails: one faulty member of four is enough. */
  lemma VotesForOthers()
    ensures exists g, es, ys :: ConfigOk(g) && !g.exact && Run(g, es, ys) && Split(ys[|es|])
  {
    Sizes();
    var y := ForkReached();
    assert ConfigOk(CONFIG);
    var es, ys :| Run(CONFIG, es, ys) && ys[|es|] == y;
  }
}
