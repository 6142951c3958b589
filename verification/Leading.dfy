/**
  The leader: exactly which votes are counted, which stop it and which change nothing, and that it
  moves on only from a complete phase.
 */
module Leading {
  import opened Encoding
  import opened Bft
  import opened Guarantees

  // ----- the three things a vote can do

  /** A vote about the block the leader is working on. */
  ghost predicate About(s: State, m: Message) {
    !s.halted && s.current == Some(m.block)
  }

  /**
    The votes that stop the leader: one for a phase of the first block not yet reached, whose bitmap
    is still nil, or one without any member while votes of its phase are being counted.
   */
  ghost predicate Stops(s: State, c: Committee, m: Message, stage: Stage) {
    && About(s, m)
    && (|| (Rank(stage) > Rank(s.phase.stage) && s.phase.height == 0)
        || (stage == s.phase.stage && !Enough(c, TallyAt(s, stage)) && m.bits.keys == {}))
  }

  /** The votes that are counted: in their own phase, verified, and naming someone new. */
  ghost predicate Counts(s: State, c: Committee, m: Message, stage: Stage, signed: set<Sig>) {
    && About(s, m) && stage == s.phase.stage && TallyAt(s, stage).Some? && !Enough(c, TallyAt(s, stage))
    && m.bits.keys != {}
    && VerifySign(signed, m.sig, First(m.bits.keys), TagAt(stage), HashOf(m.block))
    && NewKeys(TallyAt(s, stage).value.bits, m.bits) != {}
  }

  /** The leader is never between phases: an unfinished tally is that of its own phase. */
  lemma OpenTally(s: State, c: Committee, signed: set<Sig>, stage: Stage)
    requires LeaderOk(s, c, signed) && s.current.Some? && Rank(stage) >= Rank(s.phase.stage) && stage != Init
    ensures stage == s.phase.stage ==> TallyAt(s, stage).Some?
    ensures stage != s.phase.stage ==>
        if s.phase.height == 0 then TallyAt(s, stage).None? else Enough(c, TallyAt(s, stage))
  {
  }

  /**
    Every vote is counted, stops the leader, or changes nothing, and which it is can be told from
    the vote and the leader's state.
   */
  lemma VoteExact(s: State, c: Committee, m: Message, stage: Stage, signed: set<Sig>, payload: Payload)
    requires LeaderOk(s, c, signed) && stage != Init
    ensures var r := OnVote(s, c, m, stage, signed, payload);
            && (r.state.halted <==> s.halted || Stops(s, c, m, stage))
            && (r == Ignore(s) <==> !Stops(s, c, m, stage) && !Counts(s, c, m, stage, signed))
            && (Counts(s, c, m, stage, signed) <==> !s.halted && CountVote(s, c, m, stage, signed).Counted?)
            && (Stops(s, c, m, stage) ==> r == Halt(s))
  {
    if !s.halted {
      VoteVerdict(s, c, m, stage, signed);
    }
    if Counts(s, c, m, stage, signed) {
      CountedGrows(s, c, m, stage, signed, payload);
    }
  }

  lemma VoteVerdict(s: State, c: Committee, m: Message, stage: Stage, signed: set<Sig>)
    requires LeaderOk(s, c, signed) && stage != Init && !s.halted
    ensures CountVote(s, c, m, stage, signed).NilDeref? <==> Stops(s, c, m, stage)
    ensures CountVote(s, c, m, stage, signed).Counted? <==> Counts(s, c, m, stage, signed)
  {
    if s.current.Some? && Rank(stage) >= Rank(s.phase.stage) {
      OpenTally(s, c, signed, stage);
    }
  }

  lemma CountedGrows(s: State, c: Committee, m: Message, stage: Stage, signed: set<Sig>, payload: Payload)
    requires stage != Init && !s.halted && CountVote(s, c, m, stage, signed).Counted?
    ensures var r := OnVote(s, c, m, stage, signed, payload); r.state != s && !r.state.halted
  {
  }

  // ----- moving on

  lemma SoloTally(s: State, c: Committee, signed: set<Sig>, t: State, tag: Tag)
    requires s.id < c.n && t.id == s.id && t.current.Some?
    ensures var own := Sig(s.id, tag, HashOf(t.current.value));
            Tallied(t, c, signed + {own}, Some(Tally(Own(c, s.id), multiset{own})), tag)
  {
    SigsOfOne(s.id, tag, HashOf(t.current.value));
  }

  lemma TalliedMore(s: State, t: State, c: Committee, signed: set<Sig>, more: set<Sig>, x: Option<Tally>, tag: Tag)
    requires Tallied(s, c, signed, x, tag) && signed <= more && t.id == s.id && t.current == s.current
    ensures Tallied(t, c, more, x, tag)
  {
  }

  lemma ProposeOk(s: State, c: Committee, signed: set<Sig>, payload: Payload)
    requires LeaderOk(s, c, signed) && (s.current.None? || (s.phase.stage == Commit && Enough(c, s.commit)))
    ensures var r := Propose(s, c, payload); LeaderOk(r.state, c, signed + r.sigs) && Advances(s, r)
  {
    var r := Propose(s, c, payload);
    var t := r.state;
    ChainOkMore(s, c, signed, signed + r.sigs);
    VotesOkMore(s.id, s.phase, t.phase, signed, signed + r.sigs);
    assert ChainOk(t, c, signed + r.sigs);
    SoloTally(s, c, signed, t, PrepareTag);
  }

  lemma StartPrecommitOk(s: State, c: Committee, signed: set<Sig>)
    requires LeaderOk(s, c, signed) && s.phase.stage == Prepare && Enough(c, s.prepare)
    ensures s.current.Some?
    ensures var r := StartPrecommit(s, c); LeaderOk(r.state, c, signed + r.sigs) && Advances(s, r)
  {
    var r := StartPrecommit(s, c);
    PrecommitVotes(s, c, r.state, signed, signed + r.sigs);
    TalliedMore(s, r.state, c, signed, signed + r.sigs, s.prepare, PrepareTag);
    SoloTally(s, c, signed, r.state, PrecommitTag);
  }

  lemma StartCommitOk(s: State, c: Committee, signed: set<Sig>)
    requires LeaderOk(s, c, signed) && s.phase.stage == Precommit && Enough(c, s.precommit)
    ensures s.current.Some? && s.precommit.Some?
    ensures var r := StartCommit(s, c); LeaderOk(r.state, c, signed + r.sigs) && Advances(s, r)
  {
    var r := StartCommit(s, c);
    CommitAppends(s, c, r.state, signed, signed + r.sigs, s.precommit.value);
    TalliedMore(s, r.state, c, signed, signed + r.sigs, s.prepare, PrepareTag);
    TalliedMore(s, r.state, c, signed, signed + r.sigs, s.precommit, PrecommitTag);
    SoloTally(s, c, signed, r.state, CommitTag);
  }

  lemma MoveOnOk(s: State, c: Committee, stage: Stage, signed: set<Sig>, payload: Payload)
    requires LeaderOk(s, c, signed) && stage == s.phase.stage != Init && Enough(c, TallyAt(s, stage))
    ensures s.current.Some? && TallyAt(s, stage).Some?
    ensures var r := MoveOn(s, c, stage, payload); LeaderOk(r.state, c, signed + r.sigs) && Advances(s, r)
  {
    match stage
    case Prepare => StartPrecommitOk(s, c, signed);
    case Precommit => StartCommitOk(s, c, signed);
    case Commit => ProposeOk(s, c, signed, payload);
  }

  // ----- votes keep the guarantees

  lemma SetTallyOk(s: State, c: Committee, stage: Stage, signed: set<Sig>, t: Tally)
    requires LeaderOk(s, c, signed) && stage == s.phase.stage != Init
    requires Tallied(s, c, signed, Some(t), TagAt(stage))
    ensures LeaderOk(SetTally(s, stage, t), c, signed)
  {
    assert ChainOk(SetTally(s, stage, t), c, signed);
  }

  lemma OnVoteOk(s: State, c: Committee, m: Message, stage: Stage, signed: set<Sig>, payload: Payload)
    requires LeaderOk(s, c, signed) && stage != Init && OnlyMembers(c, signed) && AddsFirst(s, c, m, stage, signed)
    ensures var r := OnVote(s, c, m, stage, signed, payload); LeaderOk(r.state, c, signed + r.sigs) && Advances(s, r)
  {
    VoteExact(s, c, m, stage, signed, payload);
    LeaderHaltOk(s, c, signed);
    if Counts(s, c, m, stage, signed) {
      OpenTallied(s, c, stage, signed);
      CountVoteOk(s, c, m, stage, signed);
      CountedOk(s, c, stage, signed, CountVote(s, c, m, stage, signed).tally, payload);
    }
  }

  lemma LeaderHaltOk(s: State, c: Committee, signed: set<Sig>)
    requires LeaderOk(s, c, signed)
    ensures LeaderOk(s, c, signed + {}) && LeaderOk(s.(halted := true), c, signed + {})
    ensures Advances(s, Ignore(s)) && Advances(s, Halt(s))
  {
    HaltOk(s, c, signed);
    assert signed + {} == signed;
  }

  lemma OpenTallied(s: State, c: Committee, stage: Stage, signed: set<Sig>)
    requires LeaderOk(s, c, signed) && stage == s.phase.stage != Init
    ensures Tallied(s, c, signed, TallyAt(s, stage), TagAt(stage))
  {
  }

  lemma CountedOk(s: State, c: Committee, stage: Stage, signed: set<Sig>, t: Tally, payload: Payload)
    requires LeaderOk(s, c, signed) && stage == s.phase.stage != Init
    requires Tallied(s, c, signed, Some(t), TagAt(stage))
    ensures s.current.Some?
    ensures var u := SetTally(s, stage, t);
            var r := if Enough(c, Some(t)) then MoveOn(u, c, stage, payload) else Ignore(u);
            LeaderOk(r.state, c, signed + r.sigs) && Advances(s, r)
  {
    var u := SetTally(s, stage, t);
    SetTallyOk(s, c, stage, signed, t);
    assert signed + {} == signed;
    if Enough(c, Some(t)) {
      MoveOnOk(u, c, stage, signed, payload);
    }
  }

  /** The three ways the leader moves on: each from its own phase only, and with a full tally. */
  ghost predicate Fires(s: State, t: State, c: Committee) {
    match s.phase.stage
    case Init => false
    case Prepare => t.phase == Phase(s.phase.height, Precommit) && Enough(c, t.prepare) && t.current == s.current
    case Precommit => t.phase == Phase(s.phase.height, Commit) && Enough(c, t.precommit) && t.current == s.current
    case Commit => t.phase == Phase(s.phase.height + 1, Prepare) && Enough(c, t.commit)
  }

  /** Votes of any kind, early, late or twice, move the leader on only when its phase is complete. */
  lemma VoteFires(s: State, c: Committee, m: Message, stage: Stage, signed: set<Sig>, payload: Payload)
    requires LeaderOk(s, c, signed) && stage != Init
    ensures var r := OnVote(s, c, m, stage, signed, payload).state; r.phase == s.phase || Fires(s, r, c)
  {
    VoteVerdictOrHalted(s, c, m, stage, signed);
  }

  lemma VoteVerdictOrHalted(s: State, c: Committee, m: Message, stage: Stage, signed: set<Sig>)
    requires LeaderOk(s, c, signed) && stage != Init
    ensures !s.halted && CountVote(s, c, m, stage, signed).Counted? ==> stage == s.phase.stage
  {
    if !s.halted {
      VoteVerdict(s, c, m, stage, signed);
    }
  }
}
