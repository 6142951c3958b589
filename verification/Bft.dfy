/**
  In-shard three-phase consensus: what one node does on one message. Signatures are ideal: one
  verifies exactly if the signer produced it, and an aggregate is the multiset of the signatures
  added up in it. A block stands for its header, and a block hash determines it.
 */
module Bft {
  import opened Encoding
  import opened Rlp

  datatype Hash = ZeroHash | HashOf(block: Block)

  /** The fields of a header besides height and previous hash. */
  datatype Payload = Payload(shardId: nat, stateRoot: Blob, txRoot: Blob, dst: seq<bv8>, time: nat)

  datatype Block = Block(height: nat, prev: Hash, payload: Payload)

  /** The message types that are signed; the precommit signature goes into the block header. */
  datatype Tag = PrepareTag | PrecommitTag | CommitTag

  datatype Sig = Sig(signer: nat, tag: Tag, hash: Hash)

  type Aggregate = multiset<Sig>

  /** What a bitmap of so many bytes stands for. */
  datatype Bits = Bits(keys: set<nat>, size: nat)

  datatype Message = Message(block: Block, bits: Bits, sig: Aggregate)

  /** Members counted for a block, and the aggregate of their signatures. */
  datatype Tally = Tally(bits: Bits, sig: Aggregate)

  // ----- phases

  datatype Stage = Init | Prepare | Precommit | Commit

  function Rank(s: Stage): nat {
    match s
    case Init => 0
    case Prepare => 1
    case Precommit => 2
    case Commit => 3
  }

  datatype Phase = Phase(height: nat, stage: Stage)

  /** Whether x is later than p. */
  predicate IsNew(p: Phase, x: Phase) {
    !(p.height > x.height || (p.height == x.height && Rank(p.stage) >= Rank(x.stage)))
  }

  /** Whether p is later than x. */
  predicate IsOut(p: Phase, x: Phase) {
    p.height > x.height || (p.height == x.height && Rank(p.stage) > Rank(x.stage))
  }

  function Switch(p: Phase, x: Phase): Phase {
    if IsNew(p, x) then x else p
  }

  // ----- one node

  /** A committee of members 0 to n - 1; the last one leads. */
  datatype Committee = Committee(n: nat)

  function Threshold(c: Committee): nat {
    c.n * 2 / 3 + 1
  }

  predicate Member(c: Committee, i: nat) {
    i < c.n
  }

  function Members(c: Committee): set<nat> {
    set i | 0 <= i < c.n && Member(c, i)
  }

  /**
    current is the block being agreed on, latest the chain's newest block, committed its history
    and certs the bitmap and signature put into each committed header.
   */
  datatype State = State(
    id: nat,
    phase: Phase,
    current: Option<Block>,
    lastHash: Hash,
    latest: Option<Block>,
    committed: seq<Block>,
    certs: seq<Tally>,
    prepare: Option<Tally>,
    precommit: Option<Tally>,
    commit: Option<Tally>,
    halted: bool)

  function Start(id: nat): State {
    State(id, Phase(0, Init), None, ZeroHash, None, [], [], None, None, None, false)
  }

  datatype Reaction = Reaction(state: State, sigs: set<Sig>)

  function Ignore(s: State): Reaction {
    Reaction(s, {})
  }

  /** A nil dereference or an index out of range stops the node. */
  function Halt(s: State): Reaction {
    Reaction(s.(halted := true), {})
  }

  // ----- signatures and bitmaps

  /** The signatures of all the keys, each once. */
  function SigsOf(keys: set<nat>, tag: Tag, h: Hash): Aggregate {
    multiset(set k | k in keys :: Sig(k, tag, h))
  }

  predicate SignedBy(signed: set<Sig>, c: Committee, keys: set<nat>, tag: Tag, h: Hash) {
    forall k :: k in keys ==> k < c.n && Sig(k, tag, h) in signed
  }

  predicate VerifySign(signed: set<Sig>, sig: Aggregate, key: nat, tag: Tag, h: Hash) {
    sig == multiset{Sig(key, tag, h)} && Sig(key, tag, h) in signed
  }

  predicate VerifyAggregate(signed: set<Sig>, c: Committee, sig: Aggregate, keys: set<nat>, tag: Tag, h: Hash) {
    sig == SigsOf(keys, tag, h) && SignedBy(signed, c, keys, tag, h)
  }

  /** The first element of a bitmap in ascending order. */
  function First(keys: set<nat>): (k: nat)
    requires keys != {}
    ensures k in keys && forall j :: j in keys ==> k <= j
  {
    LeastExists(keys);
    var k :| IsLeast(keys, k);
    k
  }

  predicate IsLeast(keys: set<nat>, k: nat) {
    k in keys && forall j :: j in keys ==> k <= j
  }

  lemma {:induction false} LeastExists(keys: set<nat>)
    requires keys != {}
    ensures exists k :: IsLeast(keys, k)
    decreases |keys|
  {
    var x :| x in keys;
    var rest := keys - {x};
    if rest == {} {
      assert forall j :: j in keys ==> j == x || j in rest;
      assert IsLeast(keys, x);
    } else {
      LeastExists(rest);
      var k :| IsLeast(rest, k);
      LeastOfMore(keys, rest, x, k);
    }
  }

  lemma LeastOfMore(keys: set<nat>, rest: set<nat>, x: nat, k: nat)
    requires x in keys && rest == keys - {x} && IsLeast(rest, k)
    ensures IsLeast(keys, if x < k then x else k)
  {
    forall j | j in keys
      ensures (if x < k then x else k) <= j
    {
      assert j == x || j in rest;
    }
  }

  /** The bytes of a bitmap of the committee. */
  function ByteSize(c: Committee): nat {
    (c.n + 7) / 8
  }

  /** A bitmap with the node's own bit. */
  function Own(c: Committee, id: nat): Bits {
    Bits({id}, ByteSize(c))
  }

  /** The keys a merge adds; bitmaps of different sizes do not merge. */
  function NewKeys(a: Bits, b: Bits): set<nat> {
    if a.size == b.size then b.keys - a.keys else {}
  }

  function Merged(a: Bits, b: Bits): Bits {
    a.(keys := a.keys + NewKeys(a, b))
  }

  // ----- validators

  /** CheckBlock: heights are checked here, the rest of the verdict is the caller's. */
  predicate CheckBlock(latest: Option<Block>, b: Block, contentOk: bool) {
    contentOk && (b.height == 0 || (latest.Some? && b.height == latest.value.height + 1))
  }

  /** The height tests common to the three validator handlers. */
  predicate Skips(s: State, b: Block) {
    || (s.current.None? && b.height > 0)
    || (s.current.Some? && b.height > s.current.value.height
        && (b.prev != s.lastHash || b.height != s.current.value.height + 1))
  }

  function OnPrepare(s: State, c: Committee, m: Message, signed: set<Sig>, contentOk: bool): Reaction {
    var h := m.block.height;
    if s.halted || !IsNew(s.phase, Phase(h, Prepare)) || Skips(s, m.block) then Ignore(s)
    else if m.bits.keys == {} then Halt(s)
    else if !VerifySign(signed, m.sig, First(m.bits.keys), PrepareTag, HashOf(m.block)) then Ignore(s)
    else if !CheckBlock(s.latest, m.block, contentOk) then Ignore(s)
    else
      var own := Sig(s.id, PrepareTag, HashOf(m.block));
      Reaction(s.(current := Some(m.block),
                  phase := Switch(s.phase, Phase(h, Prepare)),
                  prepare := Some(Tally(Merged(Own(c, s.id), m.bits), m.sig + multiset{own}))),
               {own})
  }

  function OnPrecommit(s: State, c: Committee, m: Message, signed: set<Sig>): Reaction {
    if s.halted || !IsNew(s.phase, Phase(m.block.height, Precommit)) || Skips(s, m.block) then Ignore(s)
    else if s.current.None? then Halt(s)
    else
      var b := s.current.value;
      if || HashOf(m.block) != HashOf(b) || |m.bits.keys| < Threshold(c)
         || !VerifyAggregate(signed, c, m.sig, m.bits.keys, PrepareTag, HashOf(b))
      then Ignore(s)
      else
        var own := Sig(s.id, PrecommitTag, HashOf(b));
        Reaction(s.(prepare := Some(Tally(m.bits, m.sig)),
                    precommit := Some(Tally(Own(c, s.id), multiset{own})),
                    phase := Switch(s.phase, Phase(b.height, Precommit))),
                 {own})
  }

  /** The block goes to the chain, with the precommit bitmap and signature in its header. */
  function Append(s: State, b: Block, cert: Tally): State {
    s.(committed := s.committed + [b], certs := s.certs + [cert], latest := Some(b), lastHash := HashOf(b))
  }

  function OnCommit(s: State, c: Committee, m: Message, signed: set<Sig>): Reaction {
    if s.halted || !IsNew(s.phase, Phase(m.block.height, Commit)) || Skips(s, m.block) then Ignore(s)
    else if s.current.None? then Halt(s)
    else
      var b := s.current.value;
      if || HashOf(m.block) != HashOf(b) || |m.bits.keys| < Threshold(c)
         || !VerifyAggregate(signed, c, m.sig, m.bits.keys, PrecommitTag, HashOf(b))
      then Ignore(s)
      else
        var own, cert := Sig(s.id, CommitTag, HashOf(b)), Tally(m.bits, m.sig);
        Reaction(Append(s.(precommit := Some(cert),
                           commit := Some(Tally(Own(c, s.id), multiset{own})),
                           phase := Switch(s.phase, Phase(b.height, Commit))), b, cert),
                 {own})
  }

  // ----- the leader

  /** A new block on top of the chain becomes the chain's newest block at once. */
  function NewBlock(latest: Option<Block>, payload: Payload): Block {
    if latest.None? then Block(0, ZeroHash, payload)
    else Block(latest.value.height + 1, HashOf(latest.value), payload)
  }

  function Propose(s: State, c: Committee, payload: Payload): Reaction {
    var b := NewBlock(s.latest, payload);
    var own := Sig(s.id, PrepareTag, HashOf(b));
    Reaction(s.(current := Some(b),
                latest := Some(b),
                prepare := Some(Tally(Own(c, s.id), multiset{own})),
                phase := Switch(s.phase, Phase(b.height, Prepare))),
             {own})
  }

  function StartPrecommit(s: State, c: Committee): Reaction
    requires s.current.Some?
  {
    var b := s.current.value;
    var own := Sig(s.id, PrecommitTag, HashOf(b));
    Reaction(s.(precommit := Some(Tally(Own(c, s.id), multiset{own})),
                phase := Switch(s.phase, Phase(b.height, Precommit))),
             {own})
  }

  function StartCommit(s: State, c: Committee): Reaction
    requires s.current.Some? && s.precommit.Some?
  {
    var b := s.current.value;
    var own := Sig(s.id, CommitTag, HashOf(b));
    Reaction(Append(s.(commit := Some(Tally(Own(c, s.id), multiset{own})),
                       phase := Switch(s.phase, Phase(b.height, Commit))), b, s.precommit.value),
             {own})
  }

  /** The tally a vote of a phase goes into, and what is signed in it. */
  function TallyAt(s: State, stage: Stage): Option<Tally> {
    match stage
    case Init => None
    case Prepare => s.prepare
    case Precommit => s.precommit
    case Commit => s.commit
  }

  function SetTally(s: State, stage: Stage, t: Tally): State {
    match stage
    case Init => s
    case Prepare => s.(prepare := Some(t))
    case Precommit => s.(precommit := Some(t))
    case Commit => s.(commit := Some(t))
  }

  function TagAt(stage: Stage): Tag {
    match stage
    case Init => PrepareTag
    case Prepare => PrepareTag
    case Precommit => PrecommitTag
    case Commit => CommitTag
  }

  predicate Enough(c: Committee, t: Option<Tally>) {
    t.Some? && |t.value.bits.keys| >= Threshold(c)
  }

  datatype Count = Stale | NilDeref | BadSig | Counted(tally: Tally)

  /**
    The part the three vote handlers share. Only the first key of a vote is checked against the
    signature, the whole bitmap is merged; a bitmap that was never set up is a nil dereference.
   */
  function CountVote(s: State, c: Committee, m: Message, stage: Stage, signed: set<Sig>): Count {
    var t, keys := TallyAt(s, stage), m.bits.keys;
    if || s.current.None? || IsOut(s.phase, Phase(m.block.height, stage))
       || HashOf(m.block) != HashOf(s.current.value)
    then Stale
    else if t.None? then NilDeref
    else if Enough(c, t) then Stale
    else if keys == {} then NilDeref
    else if !VerifySign(signed, m.sig, First(keys), TagAt(stage), HashOf(m.block)) then BadSig
    else if NewKeys(t.value.bits, m.bits) == {} then Stale
    else Counted(Tally(Merged(t.value.bits, m.bits), t.value.sig + m.sig))
  }

  /** What the leader does once a phase is complete. */
  function MoveOn(s: State, c: Committee, stage: Stage, payload: Payload): Reaction
    requires s.current.Some? && TallyAt(s, stage).Some?
  {
    match stage
    case Init => Ignore(s)
    case Prepare => StartPrecommit(s, c)
    case Precommit => StartCommit(s, c)
    case Commit => Propose(s, c, payload)
  }

  /** A vote of any of the three phases. */
  function OnVote(s: State, c: Committee, m: Message, stage: Stage, signed: set<Sig>, payload: Payload): Reaction
    requires stage != Init
  {
    if s.halted then Ignore(s) else
    match CountVote(s, c, m, stage, signed)
    case NilDeref => Halt(s)
    case Counted(tally) =>
      var t := SetTally(s, stage, tally);
      if Enough(c, Some(tally)) then MoveOn(t, c, stage, payload) else Ignore(t)
    case Stale => Ignore(s)
    case BadSig => Ignore(s)
  }
}
