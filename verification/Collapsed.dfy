/**
  Collapsed nodes, the form in which dirty nodes sit in the database: flags stripped, keys compact,
  children embedded or replaced by their hash. Reading one back gives the node that decoding its
  encoding from disk would give, and the children gathered from it are those of the encoding.
 */
module Collapsed {
  import opened Encoding
  import opened Rlp
  import opened Nodes
  import opened NodeCache
  import T = Trees

  datatype RawNode =
    | RawNil
    | RawValue(v: Blob)
    | RawHash(h: Blob)
    | RawShort(key: seq<byte>, val: RawNode)
    | RawFull(c0: RawNode, c1: RawNode, c2: RawNode)

  /** The encoding of a collapsed node; an absent child is written as an empty string. */
  function RlpOf(r: RawNode): Item {
    match r
    case RawNil => EMPTY_ITEM
    case RawValue(v) => Str(v)
    case RawHash(h) => Str(h)
    case RawShort(k, v) => List([Str(Raw(k)), RlpOf(v)])
    case RawFull(a, b, c) => List([RlpOf(a), RlpOf(b), RlpOf(c)])
  }

  /** Only the outermost node keeps a hash. A malformed key makes the source panic. */
  function Expand(hash: Option<Blob>, r: RawNode): Outcome<Node>
    decreases r
  {
    match r
    case RawNil => Done(Nil)
    case RawValue(v) => Done(Value(v))
    case RawHash(h) => Done(Hash(h))
    case RawShort(k, v) =>
      var key := Decompact(k);
      if key.None? then Panic else
      var c := Expand(None, v);
      if c.Done? then Done(Short(key.value, c.value, Flags(hash, false))) else c
    case RawFull(a, b, c) =>
      var x, y, z := Expand(None, a), Expand(None, b), Expand(None, c);
      if !x.Done? then x else if !y.Done? then y else if !z.Done? then z
      else Done(Full(x.value, y.value, z.value, Flags(hash, false)))
  }

  /** The hash children, one call for each; the value slot of a full node is not visited. */
  function Gather(r: RawNode): seq<Blob> {
    match r
    case RawShort(_, v) => Gather(v)
    case RawFull(a, b, _) => Gather(a) + Gather(b)
    case RawHash(h) => [h]
    case RawNil => []
    case RawValue(_) => []
  }

  /** What the committer stores for a tree node. */
  function Collapse(t: T.Tree): RawNode
    decreases t, 0
  {
    match t
    case Nil => RawNil
    case Val(v) => RawValue(v)
    case Ext(k, s) => RawShort(if Path(k) then Compact(k) else [], Slot(s))
    case Branch(a, b, c) => RawFull(Slot(a), Slot(b), Slot(c))
  }

  function Slot(t: T.Tree): RawNode
    decreases t, 1
  {
    if t.Nil? || t.Val? || Size(T.Enc(t)) < HASH_LEN then Collapse(t) else RawHash(Keccak(T.Enc(t)))
  }

  lemma {:induction false} CollapseRlp(t: T.Tree)
    ensures RlpOf(Collapse(t)) == T.Enc(t)
    decreases t, 0
  {
    match t
    case Nil =>
    case Val(_) =>
    case Ext(_, s) => SlotRlp(s);
    case Branch(a, b, c) =>
      SlotRlp(a);
      SlotRlp(b);
      SlotRlp(c);
  }

  lemma {:induction false} SlotRlp(t: T.Tree)
    ensures RlpOf(Slot(t)) == T.Ref(t)
    decreases t, 1
  {
    CollapseRlp(t);
  }

  /** A node read from memory is the node that would be read from disk. */
  lemma {:induction false} ExpandIsDecode(t: T.Tree, hash: Option<Blob>)
    requires T.Canon(t)
    ensures Expand(hash, Collapse(t)) == Decode(RlpOf(Collapse(t)), hash)
    ensures Expand(hash, Collapse(t)).Done?
    decreases t, 0
  {
    CollapseRlp(t);
    match t
    case Ext(k, s) =>
      T.CanonPath(k, s);
      CompactRoundTrip(k);
      if !s.Val? {
        SlotIsDecode(s);
      }
      DecodeExt(t, hash);
      assert Collapse(t) == RawShort(Compact(k), Slot(s));
    case Branch(a, b, c) =>
      SlotIsDecode(a);
      SlotIsDecode(b);
      DecodeBranch(t, hash);
      assert Slot(c) == if c.Val? then RawValue(c.v) else RawNil;
      assert Collapse(t) == RawFull(Slot(a), Slot(b), Slot(c));
  }

  lemma {:induction false} SlotIsDecode(t: T.Tree)
    requires T.Root(t)
    ensures Expand(None, Slot(t)) == DecodeRef(T.Ref(t)) && DecodeRef(T.Ref(t)).Done?
    decreases t, 1
  {
    if !t.Nil? {
      T.RefOfCanon(t);
      if Size(T.Enc(t)) < HASH_LEN {
        CollapseRlp(t);
        ExpandIsDecode(t, None);
      }
    }
  }

  /** The children counted in memory are the references found in the encoding. */
  lemma {:induction false} GatherIsRefs(t: T.Tree)
    requires T.Canon(t)
    ensures Gather(Collapse(t)) == HashRefs(RlpOf(Collapse(t)))
    decreases t, 0
  {
    CollapseRlp(t);
    var items := T.Enc(t).items;
    match t
    case Ext(k, s) =>
      T.CanonPath(k, s);
      CompactRoundTrip(k);
      assert items[1] == T.Ref(s) && items[0] == Str(Raw(Compact(k)));
      assert IsLeafKey(items[0]) == s.Val?;
      assert Gather(Collapse(t)) == Gather(Slot(s));
      if s.Val? {
        assert Slot(s) == RawValue(s.v);
      } else {
        SlotIsRefs(s);
      }
    case Branch(a, b, _) =>
      assert items[0] == T.Ref(a) && items[1] == T.Ref(b);
      SlotIsRefs(a);
      SlotIsRefs(b);
  }

  lemma {:induction false} SlotIsRefs(t: T.Tree)
    requires T.Root(t)
    ensures Gather(Slot(t)) == RefsOf(T.Ref(t))
    decreases t, 1
  {
    if !t.Nil? {
      T.RefOfCanon(t);
      if Size(T.Enc(t)) < HASH_LEN {
        CollapseRlp(t);
        GatherIsRefs(t);
      }
    }
  }

  // ----- the committer's nodes

  /** Flags are discarded; the key of a short node is compact already. */
  function Simplify(n: Node): RawNode {
    match n
    case Nil => RawNil
    case Value(v) => RawValue(v)
    case Hash(h) => RawHash(h)
    case Short(k, c, _) => RawShort(k, Simplify(c))
    case Full(a, b, c, _) => RawFull(Simplify(a), Simplify(b), Simplify(c))
  }

  /** The copy of a node that the committer stores: compact key, committed children. */
  function Copy(n: Node): Node
    requires n.Short? || n.Full?
    decreases n, 0
  {
    match n
    case Short(k, c, f) => Short(if Path(k) then Compact(k) else [], if c.Full? then HandedUp(c) else c, f)
    case Full(a, b, c, f) => Full(HandedUp(a), HandedUp(b), c, f)
  }

  /** What committing a node gives its parent: the hash, or the copy of a node too small for one. */
  function HandedUp(n: Node): Node
    decreases n, 1
  {
    if n.Short? || n.Full? then
      if n.flags.hash.Some? then Hash(n.flags.hash.value) else Copy(n)
    else n
  }

  /** Stripped of its flags, the committer's copy is the collapsed form of the tree. */
  lemma {:induction false} SimplifyCollapses(n: Node, t: T.Tree, top: bool)
    requires Represents(n, t, top) && AllHashed(n, t, top) && T.Canon(t) && (n.Short? || n.Full?)
    ensures Simplify(Copy(n)) == Collapse(t)
    decreases n, 0
  {
    match n
    case Short(_, c, _) => HandedUpIsSlot(c, t.sub);
    case Full(a, b, c, _) =>
      HandedUpIsSlot(a, t.c0);
      HandedUpIsSlot(b, t.c1);
      HandedUpIsSlot(c, t.c2);
  }

  lemma {:induction false} HandedUpIsSlot(n: Node, t: T.Tree)
    requires Represents(n, t, false) && AllHashed(n, t, false) && (T.Root(t) || t.Val?)
    ensures Simplify(HandedUp(n)) == Slot(t)
    decreases n, 1
  {
    if n.Short? || n.Full? {
      SimplifyCollapses(n, t, false);
    }
  }

  /**
    What the database makes of a node that the committer stores: its encoding is the tree's, reading
    it back from memory is decoding it, and the children counted are the references in it.
   */
  lemma SimplifiedIsStored(n: Node, t: T.Tree, top: bool, hash: Option<Blob>)
    requires Represents(n, t, top) && AllHashed(n, t, top) && T.Canon(t) && (n.Short? || n.Full?)
    ensures var r := Simplify(Copy(n));
            && RlpOf(r) == T.Enc(t) && Gather(r) == HashRefs(T.Enc(t))
            && Expand(hash, r) == Decode(T.Enc(t), hash) && Expand(hash, r).Done?
  {
    SimplifyCollapses(n, t, top);
    CollapseRlp(t);
    GatherIsRefs(t);
    ExpandIsDecode(t, hash);
  }
}
