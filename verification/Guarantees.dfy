/**
  What a correct node guarantees in every state: one precommit signature per height, a hash-linked
  chain of certified blocks, and, at the leader, tallies that are exactly the signatures in them.
 */
module Guarantees {
  import opened Encoding
  import opened Bft

  // ----- the guarantees

  /** A certificate: a quorum, and exactly the precommit signatures of its members. */
  ghost predicate CertOk(signed: set<Sig>, c: Committee, t: Tally, b: Block) {
    |t.bits.keys| >= Threshold(c) && VerifyAggregate(signed, c, t.sig, t.bits.keys, PrecommitTag, HashOf(b))
  }

  /** Heights count up from zero and each block names its predecessor. */
  ghost predicate Chain(bs: seq<Block>) {
    && (forall i :: 0 <= i < |bs| ==> bs[i].height == i)
    && (forall i :: 0 < i < |bs| ==> bs[i].prev == HashOf(bs[i - 1]))
  }

  /** Correct nodes sign at most one block per height for precommit, and never go back. */
  ghost predicate VotesOk(id: nat, phase: Phase, signed: set<Sig>) {
    && (forall h :: Sig(id, PrecommitTag, h) in signed ==>
          h.HashOf? && !IsNew(phase, Phase(h.block.height, Precommit)))
    && (forall g, h :: (&& Sig(id, PrecommitTag, g) in signed && Sig(id, PrecommitTag, h) in signed
                        && g.HashOf? && h.HashOf? && g.block.height == h.block.height) ==> g == h)
  }

  function LastHash(bs: seq<Block>): Hash {
    if |bs| == 0 then ZeroHash else HashOf(bs[|bs| - 1])
  }

  /** Where the current block stands relative to the committed chain. */
  ghost predicate PhaseOk(phase: Phase, current: Option<Block>, committed: seq<Block>) {
    if current.None? then phase == Phase(0, Init) && committed == []
    else
      var b := current.value;
      && phase.height == b.height && phase.stage != Init
      && if phase.stage == Commit
         then |committed| > 0 && b == committed[|committed| - 1]
         else b.height == |committed| && (b.height > 0 ==> b.prev == LastHash(committed))
  }

  /** The chain, with a certificate for every block of it. */
  ghost predicate ChainOk(s: State, c: Committee, signed: set<Sig>) {
    && Chain(s.committed) && s.lastHash == LastHash(s.committed) && |s.certs| == |s.committed|
    && forall i :: 0 <= i < |s.committed| ==> CertOk(signed, c, s.certs[i], s.committed[i])
  }

  ghost predicate NodeOk(s: State, c: Committee, signed: set<Sig>) {
    VotesOk(s.id, s.phase, signed) && ChainOk(s, c, signed) && PhaseOk(s.phase, s.current, s.committed)
  }

  /** A validator's newest block is its last committed one. */
  ghost predicate ValidatorOk(s: State, c: Committee, signed: set<Sig>) {
    && NodeOk(s, c, signed)
    && s.latest == if |s.committed| == 0 then None else Some(s.committed[|s.committed| - 1])
  }

  /** The tally is exactly what has been added up: its members' signatures of the current block, each once. */
  ghost predicate Tallied(s: State, c: Committee, signed: set<Sig>, t: Option<Tally>, tag: Tag) {
    && s.current.Some? && t.Some? && s.id in t.value.bits.keys && t.value.bits.size == ByteSize(c)
    && VerifyAggregate(signed, c, t.value.sig, t.value.bits.keys, tag, HashOf(s.current.value))
  }

  /** The tally of a phase not yet reached: none before the first commit, then a full one of an earlier block. */
  ghost predicate NotYet(s: State, c: Committee, t: Option<Tally>) {
    if s.committed == [] then t.None? else Enough(c, t)
  }

  /** The tallies of all phases fit the phase the leader is in. */
  ghost predicate TalliesOk(s: State, c: Committee, signed: set<Sig>) {
    match s.phase.stage
    case Init => NotYet(s, c, s.precommit) && NotYet(s, c, s.commit)
    case Prepare =>
      && Tallied(s, c, signed, s.prepare, PrepareTag) && NotYet(s, c, s.precommit) && NotYet(s, c, s.commit)
    case Precommit =>
      && Tallied(s, c, signed, s.prepare, PrepareTag) && Enough(c, s.prepare)
      && Tallied(s, c, signed, s.precommit, PrecommitTag) && NotYet(s, c, s.commit)
    case Commit =>
      && Tallied(s, c, signed, s.prepare, PrepareTag) && Enough(c, s.prepare)
      && Tallied(s, c, signed, s.precommit, PrecommitTag) && Enough(c, s.precommit)
      && Tallied(s, c, signed, s.commit, CommitTag)
  }

  /** The leader's newest block is the one it proposed. */
  ghost predicate LeaderOk(s: State, c: Committee, signed: set<Sig>) {
    NodeOk(s, c, signed) && s.id < c.n && s.latest == s.current && TalliesOk(s, c, signed)
  }

  /** Signatures so far are those of members. */
  ghost predicate OnlyMembers(c: Committee, signed: set<Sig>) {
    forall x :: x in signed ==> x.signer < c.n
  }

  // ----- more signatures, by others, change nothing

  lemma ChainOkMore(s: State, c: Committee, signed: set<Sig>, more: set<Sig>)
    requires ChainOk(s, c, signed) && signed <= more
    ensures ChainOk(s, c, more)
  {
    forall i | 0 <= i < |s.committed|
      ensures CertOk(more, c, s.certs[i], s.committed[i])
    {
      assert CertOk(signed, c, s.certs[i], s.committed[i]);
    }
  }

  /** No new precommit signature of the node. */
  ghost predicate NoNewVote(id: nat, signed: set<Sig>, more: set<Sig>) {
    signed <= more && forall x :: x in more && x !in signed ==> x.signer != id || x.tag != PrecommitTag
  }

  lemma VotesOkMore(id: nat, phase: Phase, later: Phase, signed: set<Sig>, more: set<Sig>)
    requires VotesOk(id, phase, signed) && NoNewVote(id, signed, more) && (later == phase || IsNew(phase, later))
    ensures VotesOk(id, later, more)
  {
    forall h | Sig(id, PrecommitTag, h) in more
      ensures h.HashOf? && !IsNew(later, Phase(h.block.height, Precommit))
    {
      assert Sig(id, PrecommitTag, h) in signed;
    }
  }

  lemma NodeOkMore(s: State, c: Committee, signed: set<Sig>, more: set<Sig>)
    requires NodeOk(s, c, signed) && NoNewVote(s.id, signed, more)
    ensures NodeOk(s, c, more)
  {
    ChainOkMore(s, c, signed, more);
    VotesOkMore(s.id, s.phase, s.phase, signed, more);
  }

  lemma LeaderOkMore(s: State, c: Committee, signed: set<Sig>, more: set<Sig>)
    requires LeaderOk(s, c, signed) && NoNewVote(s.id, signed, more)
    ensures LeaderOk(s, c, more)
  {
    NodeOkMore(s, c, signed, more);
  }

  /** A vote in the precommit phase of a later block. */
  lemma AddVote(id: nat, phase: Phase, signed: set<Sig>, b: Block)
    requires VotesOk(id, phase, signed) && IsNew(phase, Phase(b.height, Precommit))
    ensures VotesOk(id, Phase(b.height, Precommit), signed + {Sig(id, PrecommitTag, HashOf(b))})
  {
  }

  // ----- validators

  /** The phase never moves back, and moves whenever something is signed; chains only grow. */
  ghost predicate Advances(s: State, r: Reaction) {
    && (r.state.phase == s.phase || IsNew(s.phase, r.state.phase))
    && (r.sigs != {} ==> IsNew(s.phase, r.state.phase))
    && s.committed <= r.state.committed && s.certs <= r.state.certs
    && r.state.id == s.id && (forall x :: x in r.sigs ==> x.signer == s.id)
  }

  lemma HaltOk(s: State, c: Committee, signed: set<Sig>)
    requires NodeOk(s, c, signed)
    ensures NodeOk(s, c, signed + {}) && NodeOk(s.(halted := true), c, signed + {})
    ensures Advances(s, Ignore(s)) && Advances(s, Halt(s))
  {
    assert signed + {} == signed;
    assert ChainOk(s.(halted := true), c, signed);
  }

  lemma OnPrepareOk(s: State, c: Committee, m: Message, signed: set<Sig>, contentOk: bool)
    requires ValidatorOk(s, c, signed)
    ensures var r := OnPrepare(s, c, m, signed, contentOk); ValidatorOk(r.state, c, signed + r.sigs) && Advances(s, r)
  {
    var r := OnPrepare(s, c, m, signed, contentOk);
    HaltOk(s, c, signed);
    if r.sigs != {} {
      PrepareAdopts(s, c, r.state, signed, signed + r.sigs, m.block);
    }
  }

  /** Adopting a block on top of the chain, with the phase moving on to it. */
  lemma PrepareAdopts(s: State, c: Committee, t: State, signed: set<Sig>, more: set<Sig>, b: Block)
    requires ValidatorOk(s, c, signed) && more == signed + {Sig(s.id, PrepareTag, HashOf(b))}
    requires IsNew(s.phase, Phase(b.height, Prepare)) && !Skips(s, b) && CheckBlock(s.latest, b, true)
    requires t == s.(current := Some(b), phase := Phase(b.height, Prepare), prepare := t.prepare)
    ensures ValidatorOk(t, c, more)
  {
    ChainOkMore(s, c, signed, more);
    VotesOkMore(s.id, s.phase, t.phase, signed, more);
    assert ChainOk(t, c, more);
  }

  lemma OnPrecommitOk(s: State, c: Committee, m: Message, signed: set<Sig>)
    requires ValidatorOk(s, c, signed)
    ensures var r := OnPrecommit(s, c, m, signed); ValidatorOk(r.state, c, signed + r.sigs) && Advances(s, r)
  {
    var r := OnPrecommit(s, c, m, signed);
    HaltOk(s, c, signed);
    if r.sigs != {} {
      PrecommitVotes(s, c, r.state, signed, signed + r.sigs);
    }
  }

  /** Signing the current block for precommit. */
  lemma PrecommitVotes(s: State, c: Committee, t: State, signed: set<Sig>, more: set<Sig>)
    requires NodeOk(s, c, signed) && s.current.Some?
    requires var b := s.current.value;
             && IsNew(s.phase, Phase(b.height, Precommit))
             && more == signed + {Sig(s.id, PrecommitTag, HashOf(b))}
             && t == s.(phase := Phase(b.height, Precommit), prepare := t.prepare, precommit := t.precommit)
    ensures NodeOk(t, c, more)
  {
    ChainOkMore(s, c, signed, more);
    AddVote(s.id, s.phase, signed, s.current.value);
    assert ChainOk(t, c, more);
  }

  lemma AppendChain(bs: seq<Block>, b: Block)
    requires Chain(bs) && b.height == |bs| && (b.height > 0 ==> b.prev == LastHash(bs))
    ensures Chain(bs + [b])
  {
  }

  /** Committing the current block with a certificate for it. */
  lemma CommitAppends(s: State, c: Committee, t: State, signed: set<Sig>, more: set<Sig>, cert: Tally)
    requires NodeOk(s, c, signed) && s.current.Some?
    requires var b := s.current.value;
             && IsNew(s.phase, Phase(b.height, Commit)) && CertOk(signed, c, cert, b)
             && more == signed + {Sig(s.id, CommitTag, HashOf(b))}
             && t == Append(s, b, cert).(phase := Phase(b.height, Commit), precommit := t.precommit, commit := t.commit)
    ensures NodeOk(t, c, more)
  {
    var b := s.current.value;
    ChainOkMore(s, c, signed, more);
    VotesOkMore(s.id, s.phase, t.phase, signed, more);
    AppendChain(s.committed, b);
    assert CertOk(more, c, cert, b);
    assert ChainOk(t, c, more);
  }

  lemma OnCommitOk(s: State, c: Committee, m: Message, signed: set<Sig>)
    requires ValidatorOk(s, c, signed)
    ensures var r := OnCommit(s, c, m, signed); ValidatorOk(r.state, c, signed + r.sigs) && Advances(s, r)
  {
    var r := OnCommit(s, c, m, signed);
    HaltOk(s, c, signed);
    if r.sigs != {} {
      CommitAppends(s, c, r.state, signed, signed + r.sigs, Tally(m.bits, m.sig));
    }
  }

  // ----- counting votes

  /** A vote names one member, as every node builds it. */
  ghost predicate OneKey(m: Message) {
    exists k :: m.bits.keys == {k}
  }

  /** A vote that is counted adds nobody to the tally but its first member, whose signature was checked. */
  ghost predicate AddsFirst(s: State, c: Committee, m: Message, stage: Stage, signed: set<Sig>) {
    CountVote(s, c, m, stage, signed).Counted? ==>
        m.bits.keys - TallyAt(s, stage).value.bits.keys <= {First(m.bits.keys)}
  }

  lemma SigsOfOne(k: nat, tag: Tag, h: Hash)
    ensures SigsOf({k}, tag, h) == multiset{Sig(k, tag, h)}
  {
    assert (set j | j in {k} :: Sig(j, tag, h)) == {Sig(k, tag, h)};
  }

  /** One more member, one more signature. */
  lemma SigsOfMore(keys: set<nat>, k: nat, tag: Tag, h: Hash)
    requires k !in keys
    ensures SigsOf(keys + {k}, tag, h) == SigsOf(keys, tag, h) + multiset{Sig(k, tag, h)}
  {
    var a, b := (set j | j in keys :: Sig(j, tag, h)), (set j | j in keys + {k} :: Sig(j, tag, h));
    assert b == a + {Sig(k, tag, h)};
  }

  lemma {:induction false} SigsOfSize(keys: set<nat>, tag: Tag, h: Hash)
    ensures |SigsOf(keys, tag, h)| == |keys|
    decreases |keys|
  {
    if keys == {} {
      assert (set j | j in keys :: Sig(j, tag, h)) == {};
    } else {
      var k :| k in keys;
      SigsOfSize(keys - {k}, tag, h);
      SigsOfMore(keys - {k}, k, tag, h);
      assert keys - {k} + {k} == keys;
    }
  }

  /** Exactly the members of a tally have their signature in it, and each has it once. */
  lemma TalliedExactly(s: State, c: Committee, signed: set<Sig>, t: Option<Tally>, tag: Tag, x: Sig)
    requires Tallied(s, c, signed, t, tag)
    ensures t.value.sig[x] == if x.tag == tag && x.hash == HashOf(s.current.value) && x.signer in t.value.bits.keys
        then 1 else 0
  {
  }

  /**
    When a counted vote keeps the tally exact: if all it adds is its first key, the one whose
    signature was checked. Anyone can see this from the vote and the bitmap.
   */
  lemma CountVoteExact(s: State, c: Committee, m: Message, stage: Stage, signed: set<Sig>)
    requires stage != Init && Tallied(s, c, signed, TallyAt(s, stage), TagAt(stage)) && OnlyMembers(c, signed)
    requires CountVote(s, c, m, stage, signed).Counted?
    ensures Tallied(s, c, signed, Some(CountVote(s, c, m, stage, signed).tally), TagAt(stage))
       <==> m.bits.keys - TallyAt(s, stage).value.bits.keys <= {First(m.bits.keys)}
  {
    var t, h, k := TallyAt(s, stage).value, HashOf(s.current.value), First(m.bits.keys);
    var u := CountVote(s, c, m, stage, signed).tally;
    var added := m.bits.keys - t.bits.keys;
    assert u.bits.keys == t.bits.keys + added;
    if added <= {k} {
      assert added == {k};
      SigsOfMore(t.bits.keys, k, TagAt(stage), h);
    }
    if Tallied(s, c, signed, Some(u), TagAt(stage)) {
      SigsOfSize(t.bits.keys, TagAt(stage), h);
      SigsOfSize(u.bits.keys, TagAt(stage), h);
      TalliedExactly(s, c, signed, Some(u), TagAt(stage), Sig(k, TagAt(stage), h));
      OneAdded(t.bits.keys, added, k);
    }
  }

  lemma OneAdded(keys: set<nat>, added: set<nat>, k: nat)
    requires keys !! added && |keys + added| == |keys| + 1 && k in keys + added
    ensures |added| == 1 && (k in added ==> added == {k})
  {
    assert |keys + added| == |keys| + |added|;
    if k in added {
      assert |added - {k}| == 0;
    }
  }

  /** A vote of one member always adds that member only. */
  lemma OneKeyAdds(s: State, c: Committee, m: Message, stage: Stage, signed: set<Sig>)
    requires OneKey(m)
    ensures AddsFirst(s, c, m, stage, signed)
  {
    var k :| m.bits.keys == {k};
    assert First(m.bits.keys) == k;
  }

  /** With such votes the tally stays exact. */
  lemma CountVoteOk(s: State, c: Committee, m: Message, stage: Stage, signed: set<Sig>)
    requires stage != Init && Tallied(s, c, signed, TallyAt(s, stage), TagAt(stage)) && OnlyMembers(c, signed)
    requires AddsFirst(s, c, m, stage, signed) && CountVote(s, c, m, stage, signed).Counted?
    ensures Tallied(s, c, signed, Some(CountVote(s, c, m, stage, signed).tally), TagAt(stage))
  {
    CountVoteExact(s, c, m, stage, signed);
  }
}
