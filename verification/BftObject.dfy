/**
  The protocol object: one set of fields for both roles, overwritten by the handlers, with bitmaps
  as byte arrays that votes are merged into in place. Each handled message is one step of a run,
  and keeps what the runs rely on.
 */
module BftObject {
  import opened Encoding
  import opened Bitmap
  import opened Bft
  import opened Guarantees
  import opened Leading
  import opened Agreement
  import P = Progress

  datatype MessageType =
    PrepareType | PrepareVoteType | PrecommitType | PrecommitVoteType | CommitType | CommitVoteType

  /** A bitmap in bytes and a signature, as messages and headers carry them. */
  datatype Signature = Signature(bitmap: seq<bv8>, sig: Aggregate)

  datatype Wire = Wire(kind: MessageType, block: Block, signature: Signature)

  function BitsIn(s: seq<bv8>): Bits {
    Bits(KeySet(s), |s|)
  }

  function TallyIn(x: Signature): Tally {
    Tally(BitsIn(x.bitmap), x.sig)
  }

  function MessageIn(m: Wire): Message {
    Message(m.block, BitsIn(m.signature.bitmap), m.signature.sig)
  }

  function Tallies(xs: seq<Signature>): seq<Tally> {
    if |xs| == 0 then [] else Tallies(xs[..|xs| - 1]) + [TallyIn(xs[|xs| - 1])]
  }

  lemma TalliesSnoc(xs: seq<Signature>, x: Signature)
    ensures Tallies(xs + [x]) == Tallies(xs) + [TallyIn(x)]
  {
    assert (xs + [x])[..|xs|] == xs;
  }

  /** The head of the ascending listing is the first key. */
  lemma HeadIsFirst(elements: seq<nat>, keys: set<nat>)
    requires Lists(elements, keys)
    ensures |elements| == 0 <==> keys == {}
    ensures |elements| > 0 ==> elements[0] == First(keys)
  {
    if |elements| > 0 {
      var k := elements[0];
      assert k in keys && First(keys) in elements;
      assert IsLeast(keys, k);
    }
  }

  method ToArray(s: seq<bv8>) returns (a: array<bv8>)
    ensures fresh(a) && a[..] == s
  {
    a := new bv8[|s|](i requires 0 <= i < |s| => s[i]);
  }

  /** What became of a vote: nothing to do, a panic, or new members in the bitmap. */
  datatype Outcome = Unchanged | Panics | Added

  class BFTProtocol {
    const id: nat
    const committee: Committee
    const isLeader: bool
    var phase: Phase
    var currentBlock: Option<Block>
    var latestCommittedBlockHash: Hash
    var latestBlock: Option<Block>
    var committed: seq<Block>
    var certs: seq<Signature>
    var prepareBitmap: array?<bv8>
    var precommitBitmap: array?<bv8>
    var commitBitmap: array?<bv8>
    var aggregatePrepareSig: Aggregate
    var aggregatePrecommitSig: Aggregate
    var aggregateCommitSig: Aggregate
    var halted: bool

    ghost predicate Valid()
      reads this
    {
      && id < committee.n
      && (prepareBitmap != null ==> prepareBitmap != precommitBitmap && prepareBitmap != commitBitmap)
      && (precommitBitmap != null ==> precommitBitmap != commitBitmap)
    }

    static ghost function TallyOf(b: array?<bv8>, sig: Aggregate): Option<Tally>
      reads b
    {
      if b == null then None else Some(Tally(BitsIn(b[..]), sig))
    }

    /** The state of the node as runs see it. */
    ghost function View(): State
      reads this, prepareBitmap, precommitBitmap, commitBitmap
    {
      State(id, phase, currentBlock, latestCommittedBlockHash, latestBlock, committed, Tallies(certs),
            TallyOf(prepareBitmap, aggregatePrepareSig), TallyOf(precommitBitmap, aggregatePrecommitSig),
            TallyOf(commitBitmap, aggregateCommitSig), halted)
    }

    constructor (key: nat, c: Committee, leader: bool)
      requires key < c.n
      ensures Valid() && View() == Start(key) && committee == c && isLeader == leader
    {
      id, committee, isLeader := key, c, leader;
      phase, currentBlock, latestCommittedBlockHash := Phase(0, Init), None, ZeroHash;
      latestBlock, committed, certs := None, [], [];
      prepareBitmap, precommitBitmap, commitBitmap := null, null, null;
      aggregatePrepareSig, aggregatePrecommitSig, aggregateCommitSig := multiset{}, multiset{}, multiset{};
      halted := false;
    }

    /** The phase becomes the later of the two. */
    method SwitchPhase(height: nat, stage: Stage)
      modifies `phase
      ensures phase == old(phase) || phase == Phase(height, stage)
      ensures !IsNew(phase, old(phase)) && !IsNew(phase, Phase(height, stage))
      ensures View() == old(View()).(phase := Switch(old(phase), Phase(height, stage)))
    {
      if phase.height > height || (phase.height == height && Rank(phase.stage) >= Rank(stage)) {
        return;
      }
      ghost var x, y, z := TallyOf(prepareBitmap, aggregatePrepareSig), TallyOf(precommitBitmap, aggregatePrecommitSig),
                           TallyOf(commitBitmap, aggregateCommitSig);
      phase := Phase(height, stage);
      assert TallyOf(prepareBitmap, aggregatePrepareSig) == x;
      assert TallyOf(precommitBitmap, aggregatePrecommitSig) == y && TallyOf(commitBitmap, aggregateCommitSig) == z;
    }

    /** A bitmap with the node's own bit set. */
    method OwnBitmap() returns (b: array<bv8>)
      requires id < committee.n
      ensures fresh(b) && BitsIn(b[..]) == Own(committee, id)
    {
      b := NewBitmap(committee.n);
      SetKey(b, id);
    }

    method CommitBlock(b: Block, cert: Signature)
      modifies `latestBlock, `committed, `certs, `latestCommittedBlockHash
      ensures View() == Append(old(View()), b, TallyIn(cert))
    {
      SetLatest(b);
      Extend(b, cert);
    }

    method SetLatest(b: Block)
      modifies `latestBlock, `latestCommittedBlockHash
      ensures View() == old(View()).(latest := Some(b), lastHash := HashOf(b))
    {
      ghost var x, y, z := TallyOf(prepareBitmap, aggregatePrepareSig), TallyOf(precommitBitmap, aggregatePrecommitSig),
                           TallyOf(commitBitmap, aggregateCommitSig);
      latestBlock, latestCommittedBlockHash := Some(b), HashOf(b);
      assert TallyOf(prepareBitmap, aggregatePrepareSig) == x;
      assert TallyOf(precommitBitmap, aggregatePrecommitSig) == y && TallyOf(commitBitmap, aggregateCommitSig) == z;
    }

    /** The chain, and the bitmap and signature that go into the block's header. */
    method Extend(b: Block, cert: Signature)
      modifies `committed, `certs
      ensures var s := old(View());
              View() == s.(committed := s.committed + [b], certs := s.certs + [TallyIn(cert)])
    {
      TalliesSnoc(certs, cert);
      ghost var x, y, z := TallyOf(prepareBitmap, aggregatePrepareSig), TallyOf(precommitBitmap, aggregatePrecommitSig),
                           TallyOf(commitBitmap, aggregateCommitSig);
      committed, certs := committed + [b], certs + [cert];
      assert TallyOf(prepareBitmap, aggregatePrepareSig) == x;
      assert TallyOf(precommitBitmap, aggregatePrecommitSig) == y && TallyOf(commitBitmap, aggregateCommitSig) == z;
    }

    // ----- validator

    /** The tests of heights and hashes that come first in all three handlers. */
    method Passes(b: Block, stage: Stage) returns (ok: bool)
      ensures ok <==> IsNew(phase, Phase(b.height, stage)) && !Skips(View(), b)
    {
      if !IsNew(phase, Phase(b.height, stage)) {
        return false;
      }
      if currentBlock.None? && b.height > 0 {
        return false;
      }
      if currentBlock.Some? && b.height > currentBlock.value.height {
        if b.prev != latestCommittedBlockHash || b.height != currentBlock.value.height + 1 {
          return false;
        }
      }
      ok := true;
    }

    method OnPrepareMsg(m: Wire, signed: set<Sig>, contentOk: bool) returns (sigs: set<Sig>)
      requires Valid() && !halted
      modifies this
      ensures Valid() && Reaction(View(), sigs) == OnPrepare(old(View()), committee, MessageIn(m), signed, contentOk)
      ensures old(ValidatorOk(View(), committee, signed)) ==>
                ValidatorOk(View(), committee, signed + sigs) && Advances(old(View()), Reaction(View(), sigs))
      ensures old(ValidatorOk(View(), committee, signed)) ==>
                P.Prepares(old(View()), Reaction(View(), sigs), MessageIn(m), signed, contentOk)
    {
      ghost var s := View();
      sigs := {};
      var ok := Passes(m.block, Prepare);
      if ok {
        sigs := Adopt(m, signed, contentOk);
      }
      if ValidatorOk(s, committee, signed) {
        OnPrepareOk(s, committee, MessageIn(m), signed, contentOk);
        P.PrepareExact(s, committee, MessageIn(m), signed, contentOk);
      }
    }

    /** The first key of the bitmap is taken for the signer; an empty bitmap is an index out of range. */
    method Adopt(m: Wire, signed: set<Sig>, contentOk: bool) returns (sigs: set<Sig>)
      requires Valid() && !halted && IsNew(phase, Phase(m.block.height, Prepare)) && !Skips(View(), m.block)
      modifies this
      ensures Valid() && Reaction(View(), sigs) == OnPrepare(old(View()), committee, MessageIn(m), signed, contentOk)
    {
      sigs := {};
      var x := ToArray(m.signature.bitmap);
      var elements := GetElement(x);
      HeadIsFirst(elements, KeySet(x[..]));
      if |elements| == 0 {
        halted := true;
        return;
      }
      if !VerifySign(signed, m.signature.sig, elements[0], PrepareTag, HashOf(m.block)) {
        return;
      }
      if !CheckBlock(latestBlock, m.block, contentOk) {
        return;
      }
      sigs := VotePrepare(m, x);
    }

    method VotePrepare(m: Wire, x: array<bv8>) returns (sigs: set<Sig>)
      requires Valid() && x[..] == m.signature.bitmap && IsNew(phase, Phase(m.block.height, Prepare))
      modifies this
      ensures Valid()
      ensures var s, b := old(View()), m.block;
              var own := Sig(id, PrepareTag, HashOf(b));
              var merged := Merged(Own(committee, id), BitsIn(m.signature.bitmap));
              && sigs == {own}
              && View() == s.(current := Some(b), phase := Phase(b.height, Prepare),
                              prepare := Some(Tally(merged, m.signature.sig + multiset{own})))
    {
      var bitmap := MergedBitmap(x);
      currentBlock := Some(m.block);
      var own := Sig(id, PrepareTag, HashOf(m.block));
      SwitchPhase(m.block.height, Prepare);
      aggregatePrepareSig, prepareBitmap := m.signature.sig + multiset{own}, bitmap;
      sigs := {own};
    }

    /** The node's own bit and those of the message. */
    method MergedBitmap(x: array<bv8>) returns (b: array<bv8>)
      requires id < committee.n
      ensures fresh(b) && BitsIn(b[..]) == Merged(Own(committee, id), BitsIn(x[..]))
    {
      b := OwnBitmap();
      var added := Merge(b, x);
    }

    method OnPrecommitMsg(m: Wire, signed: set<Sig>) returns (sigs: set<Sig>)
      requires Valid() && !halted
      modifies this
      ensures Valid() && Reaction(View(), sigs) == OnPrecommit(old(View()), committee, MessageIn(m), signed)
      ensures old(ValidatorOk(View(), committee, signed)) ==>
                ValidatorOk(View(), committee, signed + sigs) && Advances(old(View()), Reaction(View(), sigs))
      ensures old(ValidatorOk(View(), committee, signed)) ==>
                P.Precommits(old(View()), Reaction(View(), sigs), committee, MessageIn(m), signed)
    {
      ghost var s := View();
      sigs := FollowPrecommit(m, signed);
      if ValidatorOk(s, committee, signed) {
        OnPrecommitOk(s, committee, MessageIn(m), signed);
        P.PrecommitExact(s, committee, MessageIn(m), signed);
      }
    }

    /** Votes for the current block if the message certifies it. */
    method FollowPrecommit(m: Wire, signed: set<Sig>) returns (sigs: set<Sig>)
      requires Valid() && !halted
      modifies this
      ensures Valid() && Reaction(View(), sigs) == OnPrecommit(old(View()), committee, MessageIn(m), signed)
    {
      sigs := {};
      var ok := Passes(m.block, Precommit);
      if ok && currentBlock.None? {
        halted := true;
      } else if ok {
        var x := ToArray(m.signature.bitmap);
        var verified := Certifies(m, x, PrepareTag, signed);
        if verified {
          sigs := VotePrecommit(m.signature, x);
        }
      }
    }

    /** Whether a message carries a quorum's signatures of the current block. */
    method Certifies(m: Wire, x: array<bv8>, tag: Tag, signed: set<Sig>) returns (ok: bool)
      requires currentBlock.Some? && x[..] == m.signature.bitmap
      ensures ok <==> && HashOf(m.block) == HashOf(currentBlock.value) && |KeySet(x[..])| >= Threshold(committee)
                      && VerifyAggregate(signed, committee, m.signature.sig, KeySet(x[..]), tag,
                          HashOf(currentBlock.value))
    {
      if HashOf(m.block) != HashOf(currentBlock.value) {
        return false;
      }
      var size := GetSize(x);
      if size < Threshold(committee) {
        return false;
      }
      ok := VerifyAggregate(signed, committee, m.signature.sig, KeySet(x[..]), tag, HashOf(currentBlock.value));
    }

    /** x is none of the bitmaps in use. */
    ghost predicate Apart(x: array<bv8>)
      reads this
    {
      x != prepareBitmap && x != precommitBitmap && x != commitBitmap
    }

    method VotePrecommit(signature: Signature, x: array<bv8>) returns (sigs: set<Sig>)
      requires Valid() && currentBlock.Some? && Apart(x) && x[..] == signature.bitmap
      requires IsNew(phase, Phase(currentBlock.value.height, Precommit))
      modifies this
      ensures Valid()
      ensures var s, b := old(View()), old(currentBlock).value;
              var own := Sig(id, PrecommitTag, HashOf(b));
              && sigs == {own}
              && View() == s.(prepare := Some(TallyIn(signature)), phase := Phase(b.height, Precommit),
                              precommit := Some(Tally(Own(committee, id), multiset{own})))
    {
      var own := Sig(id, PrecommitTag, HashOf(currentBlock.value));
      TakeCertificate(signature, x);
      OpenPrecommit(own);
      SwitchPhase(currentBlock.value.height, Precommit);
      sigs := {own};
    }

    /** The leader's tally of the prepare phase replaces the node's own. */
    method TakeCertificate(signature: Signature, x: array<bv8>)
      requires Valid() && Apart(x) && x[..] == signature.bitmap
      modifies `prepareBitmap, `aggregatePrepareSig
      ensures Valid() && View() == old(View()).(prepare := Some(TallyIn(signature)))
    {
      ghost var y, z := TallyOf(precommitBitmap, aggregatePrecommitSig), TallyOf(commitBitmap, aggregateCommitSig);
      aggregatePrepareSig, prepareBitmap := signature.sig, x;
      assert TallyOf(precommitBitmap, aggregatePrecommitSig) == y;
      assert TallyOf(commitBitmap, aggregateCommitSig) == z;
    }

    method OnCommitMsg(m: Wire, signed: set<Sig>) returns (sigs: set<Sig>)
      requires Valid() && !halted
      modifies this
      ensures Valid() && Reaction(View(), sigs) == OnCommit(old(View()), committee, MessageIn(m), signed)
      ensures old(ValidatorOk(View(), committee, signed)) ==>
                ValidatorOk(View(), committee, signed + sigs) && Advances(old(View()), Reaction(View(), sigs))
      ensures old(ValidatorOk(View(), committee, signed)) ==>
                P.Commits(old(View()), Reaction(View(), sigs), committee, MessageIn(m), signed)
    {
      ghost var s := View();
      sigs := FollowCommit(m, signed);
      if ValidatorOk(s, committee, signed) {
        OnCommitOk(s, committee, MessageIn(m), signed);
        P.CommitExact(s, committee, MessageIn(m), signed);
      }
    }

    /** Votes for the current block if the message certifies it. */
    method FollowCommit(m: Wire, signed: set<Sig>) returns (sigs: set<Sig>)
      requires Valid() && !halted
      modifies this
      ensures Valid() && Reaction(View(), sigs) == OnCommit(old(View()), committee, MessageIn(m), signed)
    {
      sigs := {};
      var ok := Passes(m.block, Commit);
      if ok && currentBlock.None? {
        halted := true;
      } else if ok {
        var x := ToArray(m.signature.bitmap);
        var verified := Certifies(m, x, PrecommitTag, signed);
        if verified {
          sigs := VoteCommit(m.signature, x);
        }
      }
    }

    method VoteCommit(signature: Signature, x: array<bv8>) returns (sigs: set<Sig>)
      requires Valid() && currentBlock.Some? && Apart(x) && x[..] == signature.bitmap
      requires IsNew(phase, Phase(currentBlock.value.height, Commit))
      modifies this
      ensures Valid()
      ensures var s, b := old(View()), old(currentBlock).value;
              var own, cert := Sig(id, CommitTag, HashOf(b)), TallyIn(signature);
              && sigs == {own}
              && View() == Append(s.(precommit := Some(cert), phase := Phase(b.height, Commit),
                                     commit := Some(Tally(Own(committee, id), multiset{own}))), b, cert)
    {
      var b, own := currentBlock.value, Sig(id, CommitTag, HashOf(currentBlock.value));
      TakePrecommits(signature, x);
      OpenCommit(own);
      SwitchPhase(b.height, Commit);
      CommitBlock(b, Signature(precommitBitmap[..], aggregatePrecommitSig));
      sigs := {own};
    }

    /** The same for the precommit phase. */
    method TakePrecommits(signature: Signature, x: array<bv8>)
      requires Valid() && Apart(x) && x[..] == signature.bitmap
      modifies `precommitBitmap, `aggregatePrecommitSig
      ensures Valid() && View() == old(View()).(precommit := Some(TallyIn(signature)))
      ensures precommitBitmap == x && aggregatePrecommitSig == signature.sig
    {
      ghost var y, z := TallyOf(prepareBitmap, aggregatePrepareSig), TallyOf(commitBitmap, aggregateCommitSig);
      aggregatePrecommitSig, precommitBitmap := signature.sig, x;
      assert TallyOf(prepareBitmap, aggregatePrepareSig) == y;
      assert TallyOf(commitBitmap, aggregateCommitSig) == z;
    }

    // ----- leader

    method ProposeBlock(payload: Payload) returns (sigs: set<Sig>)
      requires Valid()
      modifies this
      ensures Valid() && Reaction(View(), sigs) == Propose(old(View()), committee, payload)
    {
      var b := NewBlock(latestBlock, payload);
      var own := Sig(id, PrepareTag, HashOf(b));
      TakeUp(b);
      OpenPrepare(own);
      SwitchPhase(b.height, Prepare);
      sigs := {own};
    }

    /** The block becomes the latest and the current one. */
    method TakeUp(b: Block)
      modifies `latestBlock, `currentBlock
      ensures View() == old(View()).(current := Some(b), latest := Some(b))
    {
      ghost var x, y, z := TallyOf(prepareBitmap, aggregatePrepareSig), TallyOf(precommitBitmap, aggregatePrecommitSig),
                           TallyOf(commitBitmap, aggregateCommitSig);
      latestBlock, currentBlock := Some(b), Some(b);
      assert TallyOf(prepareBitmap, aggregatePrepareSig) == x;
      assert TallyOf(precommitBitmap, aggregatePrecommitSig) == y && TallyOf(commitBitmap, aggregateCommitSig) == z;
    }

    /** The tally of the prepare phase starts with the node's own signature. */
    method OpenPrepare(own: Sig)
      requires Valid()
      modifies `prepareBitmap, `aggregatePrepareSig
      ensures Valid() && View() == old(View()).(prepare := Some(Tally(Own(committee, id), multiset{own})))
    {
      ghost var y, z := TallyOf(precommitBitmap, aggregatePrecommitSig), TallyOf(commitBitmap, aggregateCommitSig);
      var bitmap := OwnBitmap();
      aggregatePrepareSig, prepareBitmap := multiset{own}, bitmap;
      assert TallyOf(precommitBitmap, aggregatePrecommitSig) == y;
      assert TallyOf(commitBitmap, aggregateCommitSig) == z;
    }

    /** The tally of the precommit phase starts with the node's own signature. */
    method OpenPrecommit(own: Sig)
      requires Valid()
      modifies `precommitBitmap, `aggregatePrecommitSig
      ensures Valid() && View() == old(View()).(precommit := Some(Tally(Own(committee, id), multiset{own})))
    {
      ghost var y, z := TallyOf(prepareBitmap, aggregatePrepareSig), TallyOf(commitBitmap, aggregateCommitSig);
      var bitmap := OwnBitmap();
      aggregatePrecommitSig, precommitBitmap := multiset{own}, bitmap;
      assert TallyOf(prepareBitmap, aggregatePrepareSig) == y;
      assert TallyOf(commitBitmap, aggregateCommitSig) == z;
    }

    /** The tally of the commit phase starts with the node's own signature. */
    method OpenCommit(own: Sig)
      requires Valid()
      modifies `commitBitmap, `aggregateCommitSig
      ensures Valid() && View() == old(View()).(commit := Some(Tally(Own(committee, id), multiset{own})))
    {
      ghost var y, z := TallyOf(prepareBitmap, aggregatePrepareSig), TallyOf(precommitBitmap, aggregatePrecommitSig);
      var bitmap := OwnBitmap();
      aggregateCommitSig, commitBitmap := multiset{own}, bitmap;
      assert TallyOf(prepareBitmap, aggregatePrepareSig) == y;
      assert TallyOf(precommitBitmap, aggregatePrecommitSig) == z;
    }

    /** A leader starts with a proposal. */
    method StartLeading(payload: Payload, ghost signed: set<Sig>) returns (sigs: set<Sig>)
      requires Valid() && isLeader && currentBlock.None?
      modifies this
      ensures Valid() && Reaction(View(), sigs) == React(old(View()), committee, LeaderStarts(payload), signed)
      ensures old(LeaderOk(View(), committee, signed)) ==>
                LeaderOk(View(), committee, signed + sigs) && Advances(old(View()), Reaction(View(), sigs))
      ensures old(LeaderOk(View(), committee, signed)) ==>
                var b := Block(0, ZeroHash, payload);
                currentBlock == Some(b) && sigs == {Sig(id, PrepareTag, HashOf(b))}
    {
      ghost var s := View();
      sigs := ProposeBlock(payload);
      if LeaderOk(s, committee, signed) {
        ProposeOk(s, committee, signed, payload);
        P.StartMoves(s, committee, signed, payload);
      }
    }

    method PrecommitBlock() returns (sigs: set<Sig>)
      requires Valid() && currentBlock.Some?
      modifies this
      ensures Valid() && Reaction(View(), sigs) == StartPrecommit(old(View()), committee)
    {
      SwitchPhase(currentBlock.value.height, Precommit);
      var own := Sig(id, PrecommitTag, HashOf(currentBlock.value));
      OpenPrecommit(own);
      sigs := {own};
    }

    method CommitCurrent() returns (sigs: set<Sig>)
      requires Valid() && currentBlock.Some? && precommitBitmap != null
      modifies this
      ensures Valid() && Reaction(View(), sigs) == StartCommit(old(View()), committee)
    {
      var b := currentBlock.value;
      var own := Sig(id, CommitTag, HashOf(b));
      SwitchPhase(b.height, Commit);
      OpenCommit(own);
      CommitBlock(b, Signature(precommitBitmap[..], aggregatePrecommitSig));
      sigs := {own};
    }

    /** The bitmap votes of a phase go into. */
    function BitmapAt(stage: Stage): array?<bv8>
      reads this
    {
      match stage
      case Init => null
      case Prepare => prepareBitmap
      case Precommit => precommitBitmap
      case Commit => commitBitmap
    }

    /** The tests and the merge that the three vote handlers share; the merge is in place. */
    method MergeVote(m: Wire, stage: Stage, signed: set<Sig>) returns (r: Outcome)
      requires Valid() && !halted && stage != Init
      modifies BitmapAt(stage)
      ensures var v := CountVote(old(View()), committee, MessageIn(m), stage, signed);
              (r.Panics? <==> v.NilDeref?) && (r.Added? <==> v.Counted?)
      ensures BitmapAt(stage) != null ==> BitsIn(BitmapAt(stage)[..]) == if r.Added?
                then Merged(old(BitsIn(BitmapAt(stage)[..])), MessageIn(m).bits) else old(BitsIn(BitmapAt(stage)[..]))
    {
      var b := BitmapAt(stage);
      if || currentBlock.None? || IsOut(phase, Phase(m.block.height, stage))
         || HashOf(m.block) != HashOf(currentBlock.value) {
        return Unchanged;
      }
      if b == null {
        return Panics;
      }
      var size := GetSize(b);
      if size >= Threshold(committee) {
        return Unchanged;
      }
      var x := ToArray(m.signature.bitmap);
      r := VerifyAndMerge(b, x, m, TagAt(stage), signed);
    }

    method VerifyAndMerge(b: array<bv8>, x: array<bv8>, m: Wire, tag: Tag, signed: set<Sig>) returns (r: Outcome)
      requires b != x
      modifies b
      ensures r.Panics? <==> KeySet(x[..]) == {}
      ensures r.Added? <==> && KeySet(x[..]) != {}
                            && VerifySign(signed, m.signature.sig, First(KeySet(x[..])), tag, HashOf(m.block))
                            && NewKeys(old(BitsIn(b[..])), BitsIn(x[..])) != {}
      ensures BitsIn(b[..]) == if r.Added? then Merged(old(BitsIn(b[..])), BitsIn(x[..])) else old(BitsIn(b[..]))
    {
      var elements := GetElement(x);
      HeadIsFirst(elements, KeySet(x[..]));
      if |elements| == 0 {
        return Panics;
      }
      if !VerifySign(signed, m.signature.sig, elements[0], tag, HashOf(m.block)) {
        return Unchanged;
      }
      var newSigners := Merge(b, x);
      ListedNew(newSigners, old(BitsIn(b[..])), BitsIn(x[..]));
      assert BitsIn(b[..]) == Merged(old(BitsIn(b[..])), BitsIn(x[..]));
      r := if |newSigners| == 0 then Unchanged else Added;
    }

    static lemma ListedNew(newSigners: seq<nat>, a: Bits, b: Bits)
      requires if a.size == b.size then Lists(newSigners, b.keys - a.keys) else newSigners == []
      ensures |newSigners| == 0 <==> NewKeys(a, b) == {}
    {
      if a.size == b.size {
        ListsSize(newSigners, b.keys - a.keys);
      }
    }

    /** A leader in a state of a run, and a vote that adds nobody but its first member. */
    ghost predicate Leads(s: State, m: Wire, stage: Stage, signed: set<Sig>) {
      && LeaderOk(s, committee, signed) && OnlyMembers(committee, signed)
      && AddsFirst(s, committee, MessageIn(m), stage, signed)
    }

    method OnPrepareVoteMsg(m: Wire, signed: set<Sig>, payload: Payload) returns (sigs: set<Sig>)
      requires Valid() && !halted
      modifies this, prepareBitmap
      ensures Valid() && Reaction(View(), sigs) ==
          OnVote(old(View()), committee, MessageIn(m), Prepare, signed, payload)
      ensures Leads(old(View()), m, Prepare, signed) ==>
                LeaderOk(View(), committee, signed + sigs) && Advances(old(View()), Reaction(View(), sigs))
      ensures old(LeaderOk(View(), committee, signed)) ==>
                P.Answers(old(View()), Reaction(View(), sigs), committee, MessageIn(m), Prepare, signed, payload)
    {
      ghost var s := View();
      sigs := CountPrepareVote(m, signed, payload);
      if Leads(s, m, Prepare, signed) {
        OnVoteOk(s, committee, MessageIn(m), Prepare, signed, payload);
      }
      if LeaderOk(s, committee, signed) {
        P.VoteMoves(s, committee, MessageIn(m), Prepare, signed, payload);
      }
    }

    method CountPrepareVote(m: Wire, signed: set<Sig>, payload: Payload) returns (sigs: set<Sig>)
      requires Valid() && !halted
      modifies this, prepareBitmap
      ensures Valid() && Reaction(View(), sigs) ==
          OnVote(old(View()), committee, MessageIn(m), Prepare, signed, payload)
    {
      ghost var s := View();
      sigs := {};
      var r := MergeVote(m, Prepare, signed);
      VoteEffect(s, m, Prepare, signed, payload);
      if r.Panics? {
        halted := true;
      } else if r.Added? {
        aggregatePrepareSig := aggregatePrepareSig + m.signature.sig;
        assert View() == SetTally(s, Prepare, CountVote(s, committee, MessageIn(m), Prepare, signed).tally);
        var size := GetSize(prepareBitmap);
        if size >= Threshold(committee) {
          sigs := PrecommitBlock();
        }
      }
    }

    method OnPrecommitVoteMsg(m: Wire, signed: set<Sig>, payload: Payload) returns (sigs: set<Sig>)
      requires Valid() && !halted
      modifies this, precommitBitmap
      ensures Valid() && Reaction(View(), sigs) ==
          OnVote(old(View()), committee, MessageIn(m), Precommit, signed, payload)
      ensures Leads(old(View()), m, Precommit, signed) ==>
                LeaderOk(View(), committee, signed + sigs) && Advances(old(View()), Reaction(View(), sigs))
      ensures old(LeaderOk(View(), committee, signed)) ==>
                P.Answers(old(View()), Reaction(View(), sigs), committee, MessageIn(m), Precommit, signed, payload)
    {
      ghost var s := View();
      sigs := CountPrecommitVote(m, signed, payload);
      if Leads(s, m, Precommit, signed) {
        OnVoteOk(s, committee, MessageIn(m), Precommit, signed, payload);
      }
      if LeaderOk(s, committee, signed) {
        P.VoteMoves(s, committee, MessageIn(m), Precommit, signed, payload);
      }
    }

    method CountPrecommitVote(m: Wire, signed: set<Sig>, payload: Payload) returns (sigs: set<Sig>)
      requires Valid() && !halted
      modifies this, precommitBitmap
      ensures Valid() && Reaction(View(), sigs) ==
          OnVote(old(View()), committee, MessageIn(m), Precommit, signed, payload)
    {
      ghost var s := View();
      sigs := {};
      var r := MergeVote(m, Precommit, signed);
      VoteEffect(s, m, Precommit, signed, payload);
      if r.Panics? {
        halted := true;
      } else if r.Added? {
        aggregatePrecommitSig := aggregatePrecommitSig + m.signature.sig;
        assert View() == SetTally(s, Precommit, CountVote(s, committee, MessageIn(m), Precommit, signed).tally);
        var size := GetSize(precommitBitmap);
        if size >= Threshold(committee) {
          sigs := CommitCurrent();
        }
      }
    }

    method OnCommitVoteMsg(m: Wire, signed: set<Sig>, payload: Payload) returns (sigs: set<Sig>)
      requires Valid() && !halted
      modifies this, commitBitmap
      ensures Valid() && Reaction(View(), sigs) == OnVote(old(View()), committee, MessageIn(m), Commit, signed, payload)
      ensures Leads(old(View()), m, Commit, signed) ==>
                LeaderOk(View(), committee, signed + sigs) && Advances(old(View()), Reaction(View(), sigs))
      ensures old(LeaderOk(View(), committee, signed)) ==>
                P.Answers(old(View()), Reaction(View(), sigs), committee, MessageIn(m), Commit, signed, payload)
    {
      ghost var s := View();
      sigs := CountCommitVote(m, signed, payload);
      if Leads(s, m, Commit, signed) {
        OnVoteOk(s, committee, MessageIn(m), Commit, signed, payload);
      }
      if LeaderOk(s, committee, signed) {
        P.VoteMoves(s, committee, MessageIn(m), Commit, signed, payload);
      }
    }

    method CountCommitVote(m: Wire, signed: set<Sig>, payload: Payload) returns (sigs: set<Sig>)
      requires Valid() && !halted
      modifies this, commitBitmap
      ensures Valid() && Reaction(View(), sigs) == OnVote(old(View()), committee, MessageIn(m), Commit, signed, payload)
    {
      ghost var s := View();
      sigs := {};
      var r := MergeVote(m, Commit, signed);
      VoteEffect(s, m, Commit, signed, payload);
      if r.Panics? {
        halted := true;
      } else if r.Added? {
        aggregateCommitSig := aggregateCommitSig + m.signature.sig;
        assert View() == SetTally(s, Commit, CountVote(s, committee, MessageIn(m), Commit, signed).tally);
        var size := GetSize(commitBitmap);
        if size >= Threshold(committee) {
          sigs := ProposeBlock(payload);
        }
      }
    }

    /** The reaction to a vote, from what became of the bitmap. */
    lemma VoteEffect(s: State, m: Wire, stage: Stage, signed: set<Sig>, payload: Payload)
      requires stage != Init && !s.halted
      ensures var v, r := CountVote(s, committee, MessageIn(m), stage, signed),
                          OnVote(s, committee, MessageIn(m), stage, signed, payload);
              && (v.NilDeref? ==> r == Halt(s)) && (v.Stale? || v.BadSig? ==> r == Ignore(s))
              && (v.Counted? ==>
                    && s.current.Some? && TallyAt(s, stage).Some?
                    && v.tally == Tally(Merged(TallyAt(s, stage).value.bits, MessageIn(m).bits),
                        TallyAt(s, stage).value.sig + m.signature.sig)
                    && r == if Enough(committee, Some(v.tally))
                        then MoveOn(SetTally(s, stage, v.tally), committee, stage, payload)
                            else Ignore(SetTally(s, stage, v.tally)))
    {
    }

    /** The event of a run that a message is: a leader counts votes, a validator answers the leader. */
    ghost function EventOf(m: Wire, contentOk: bool, payload: Payload): Option<Event> {
      if isLeader then
        match m.kind
        case PrepareVoteType => Some(Vote(Prepare, MessageIn(m), payload))
        case PrecommitVoteType => Some(Vote(Precommit, MessageIn(m), payload))
        case CommitVoteType => Some(Vote(Commit, MessageIn(m), payload))
        case _ => None
      else
        match m.kind
        case PrepareType => Some(PrepareMsg(id, MessageIn(m), contentOk))
        case PrecommitType => Some(PrecommitMsg(id, MessageIn(m)))
        case CommitType => Some(CommitMsg(id, MessageIn(m)))
        case _ => None
    }

    /** The phase a vote is for; other messages are no votes. */
    static function VoteStage(m: Wire): Stage {
      match m.kind
      case PrepareVoteType => Prepare
      case PrecommitVoteType => Precommit
      case CommitVoteType => Commit
      case _ => Init
    }

    /** Handling a message is one step of a run at this node, or none, and keeps the role's guarantees. */
    method HandleBFTMsg(m: Wire, signed: set<Sig>, contentOk: bool, payload: Payload) returns (sigs: set<Sig>)
      requires Valid() && !halted
      modifies this, prepareBitmap, precommitBitmap, commitBitmap
      ensures Valid()
      ensures var e := EventOf(m, contentOk, payload);
              Reaction(View(), sigs) == if e.None? then Ignore(old(View()))
                  else React(old(View()), committee, e.value, signed)
      ensures isLeader && Leads(old(View()), m, VoteStage(m), signed) ==> LeaderOk(View(), committee, signed + sigs)
      ensures !isLeader && old(ValidatorOk(View(), committee, signed)) ==> ValidatorOk(View(), committee, signed + sigs)
    {
      sigs := {};
      ghost var none: set<Sig> := {};
      assert signed + none == signed;
      if isLeader {
        match m.kind {
          case PrepareVoteType => sigs := OnPrepareVoteMsg(m, signed, payload);
          case PrecommitVoteType => sigs := OnPrecommitVoteMsg(m, signed, payload);
          case CommitVoteType => sigs := OnCommitVoteMsg(m, signed, payload);
          case _ =>
        }
      } else {
        match m.kind {
          case PrepareType => sigs := OnPrepareMsg(m, signed, contentOk);
          case PrecommitType => sigs := OnPrecommitMsg(m, signed);
          case CommitType => sigs := OnCommitMsg(m, signed);
          case _ =>
        }
      }
    }
  }
}
