/**
  Hashing a trie and committing it to the node store. A node keeps the hash once computed, small
  nodes are embedded in their parents, and commit skips everything already clean.
 */
module Hasher {
  import opened Encoding
  import opened Rlp
  import opened Nodes
  import T = Trees

  /** Collapsed reference to the node, and the node with its hash cached. */
  datatype Hashed = Hashed(ref: Item, node: Node)

  function LeafRef(n: Node): Item
    requires n.Nil? || n.Value? || n.Hash?
  {
    match n
    case Nil => EMPTY_ITEM
    case Value(v) => Str(v)
    case Hash(h) => Str(h)
  }

  function HashNode(n: Node, force: bool): (r: Hashed)
  {
    match n
    case Short(k, c, f) =>
      if f.hash.Some? then Hashed(Str(f.hash.value), n)
      else
        var h := HashNode(c, false);
        Finish(List([T.KeyItem(k), h.ref]), n.(child := h.node), force)
    case Full(a, b, c, f) =>
      if f.hash.Some? then Hashed(Str(f.hash.value), n)
      else
        var x, y := HashNode(a, false), HashNode(b, false);
        Finish(List([x.ref, y.ref, HashNode(c, false).ref]), n.(c0 := x.node, c1 := y.node), force)
    case _ => Hashed(LeafRef(n), n)
  }

  /** Nodes smaller than 32 bytes are stored inside their parent, unless forced. */
  function Finish(item: Item, n: Node, force: bool): Hashed
    requires n.Short? || n.Full?
  {
    if Size(item) < HASH_LEN && !force then Hashed(item, n.(flags := n.flags.(hash := None)))
    else Hashed(Str(Keccak(item)), n.(flags := n.flags.(hash := Some(Keccak(item)))))
  }

  /** The reference a node must get: the forced hash at the root, else the reference of its tree. */
  function RefFor(t: T.Tree, force: bool): Item {
    if force && !t.Nil? && !t.Val? then Str(Keccak(T.Enc(t))) else T.Ref(t)
  }

  /** Shapes that occur as children of canonical nodes. */
  predicate Sub(t: T.Tree) {
    t.Val? || T.Root(t)
  }

  /** Right reference, same tree, everything cached; a dirty node does not turn clean. */
  ghost predicate HashesTo(db: Store, h: Hashed, n: Node, t: T.Tree, force: bool) {
    && h.ref == RefFor(t, force)
    && Represents(h.node, t, force)
    && AllHashed(h.node, t, force)
    && (Backed(db, n, t) ==> Backed(db, h.node, t))
  }

  lemma RefForBig(t: T.Tree, force: bool)
    requires T.Canon(t) && (force || Size(T.Enc(t)) >= HASH_LEN)
    ensures RefFor(t, force) == Str(Keccak(T.Enc(t)))
  {
  }

  lemma {:induction false} HashRefines(db: Store, n: Node, t: T.Tree, force: bool)
    requires Represents(n, t, force) && Sub(t)
    ensures HashesTo(db, HashNode(n, force), n, t, force)
  {
    if T.Canon(t) && (force || Size(T.Enc(t)) >= HASH_LEN) {
      RefForBig(t, force);
    }
    match n
    case Short(k, c, f) =>
      if f.hash.None? {
        HashRefines(db, c, t.sub, false);
        HashShort(db, n, t, force);
      }
    case Full(a, b, c, f) =>
      if f.hash.None? {
        HashRefines(db, a, t.c0, false);
        HashRefines(db, b, t.c1, false);
        HashRefines(db, c, t.c2, false);
        HashFull(db, n, t, force);
      }
    case Nil => T.RefOfValue(t);
    case Value(_) => T.RefOfValue(t);
    case Hash(_) =>
  }

  lemma HashShort(db: Store, n: Node, t: T.Tree, force: bool)
    requires Represents(n, t, force) && Sub(t) && n.Short? && n.flags.hash.None?
    requires HashesTo(db, HashNode(n.child, false), n.child, t.sub, false)
    ensures HashesTo(db, HashNode(n, force), n, t, force)
  {
    var item := List([T.KeyItem(n.key), HashNode(n.child, false).ref]);
    assert item == T.Enc(t);
  }

  lemma HashFull(db: Store, n: Node, t: T.Tree, force: bool)
    requires Represents(n, t, force) && Sub(t) && n.Full? && n.flags.hash.None?
    requires HashesTo(db, HashNode(n.c0, false), n.c0, t.c0, false)
    requires HashesTo(db, HashNode(n.c1, false), n.c1, t.c1, false)
    requires HashesTo(db, HashNode(n.c2, false), n.c2, t.c2, false)
    ensures HashesTo(db, HashNode(n, force), n, t, force)
  {
    var item := List([HashNode(n.c0, false).ref, HashNode(n.c1, false).ref, HashNode(n.c2, false).ref]);
    assert item == T.Enc(t);
  }
}
