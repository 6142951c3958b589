/**
  Committing a hashed trie: children first, every dirty node with a hash is written to the store
  under it, clean nodes are replaced by their hash without being visited.
 */
module Committer {
  import opened Encoding
  import opened Rlp
  import opened Nodes
  import opened Hasher
  import T = Trees

  datatype Committed = Committed(ref: Item, db: Store)

  function CommitNode(db: Store, n: Node): Committed
    decreases n
  {
    match n
    case Short(k, c, f) =>
      if f.hash.Some? && !f.dirty then Committed(Str(f.hash.value), db)
      else
        var r := if c.Full? then CommitNode(db, c) else Committed(HashNode(c, false).ref, db);
        Save(r.db, List([T.KeyItem(k), r.ref]), f.hash)
    case Full(a, b, c, f) =>
      if f.hash.Some? && !f.dirty then Committed(Str(f.hash.value), db)
      else
        var x := CommitNode(db, a);
        var y := CommitNode(x.db, b);
        Save(y.db, List([x.ref, y.ref, HashNode(c, false).ref]), f.hash)
    case _ => Committed(LeafRef(n), db)
  }

  /** A node without a hash is a small one, stored in its parent. */
  function Save(db: Store, item: Item, hash: Option<Blob>): Committed {
    if hash.None? then Committed(item, db) else Committed(Str(hash.value), db[hash.value := item])
  }

  predicate Extends(db: Store, db': Store) {
    forall h :: h in db ==> h in db' && db'[h] == db[h]
  }

  lemma {:induction false} StoredMono(db: Store, db': Store, t: T.Tree)
    requires Extends(db, db') && Stored(db, t)
    ensures Stored(db', t)
  {
    match t
    case Ext(_, s) => StoredMono(db, db', s);
    case Branch(a, b, c) =>
      StoredMono(db, db', a);
      StoredMono(db, db', b);
      StoredMono(db, db', c);
    case Nil =>
    case Val(_) =>
  }

  lemma {:induction false} BackedMono(db: Store, db': Store, n: Node, t: T.Tree)
    requires Extends(db, db') && Backed(db, n, t)
    ensures Backed(db', n, t)
  {
    if Stored(db, t) {
      StoredMono(db, db', t);
    }
    match n
    case Short(_, c, _) => BackedMono(db, db', c, t.sub);
    case Full(a, b, c, _) =>
      BackedMono(db, db', a, t.c0);
      BackedMono(db, db', b, t.c1);
      BackedMono(db, db', c, t.c2);
    case Nil =>
    case Value(_) =>
    case Hash(_) =>
  }

  /** The right reference; nothing stored before was lost or changed. */
  ghost predicate Commits(db: Store, r: Committed, t: T.Tree, top: bool) {
    r.ref == RefFor(t, top) && StoreOk(r.db) && Extends(db, r.db)
  }

  /** Everything of t can be read. */
  ghost predicate Whole(db: Store, t: T.Tree, top: bool) {
    Stored(db, t) && (top && T.Canon(t) ==> Keccak(T.Enc(t)) in db)
  }

  ghost predicate Ready(db: Store, n: Node, t: T.Tree, top: bool) {
    StoreOk(db) && Represents(n, t, top) && AllHashed(n, t, top) && Sub(t)
  }

  lemma SaveCommits(db: Store, item: Item, hash: Option<Blob>, t: T.Tree, top: bool)
    requires StoreOk(db) && T.Canon(t) && item == T.Enc(t)
    requires hash.Some? ==> hash.value == Keccak(item) && (top || Size(item) >= HASH_LEN)
    requires hash.None? ==> !top && Size(item) < HASH_LEN
    ensures Commits(db, Save(db, item, hash), t, top)
    ensures StoredBelow(db, t) ==> Whole(Save(db, item, hash).db, t, top)
  {
    var r := Save(db, item, hash);
    assert Extends(db, r.db);
    if StoredBelow(db, t) {
      if t.Ext? {
        StoredMono(db, r.db, t.sub);
      } else {
        StoredMono(db, r.db, t.c0);
        StoredMono(db, r.db, t.c1);
        StoredMono(db, r.db, t.c2);
      }
    }
  }

  ghost predicate StoredBelow(db: Store, t: T.Tree)
    requires T.Canon(t)
  {
    if t.Ext? then Stored(db, t.sub) else Stored(db, t.c0) && Stored(db, t.c1) && Stored(db, t.c2)
  }

  /** If every node left unloaded or clean can be read before, the whole tree can be read afterwards. */
  lemma {:induction false} CommitNodeCommits(db: Store, n: Node, t: T.Tree, top: bool)
    requires Ready(db, n, t, top)
    ensures Commits(db, CommitNode(db, n), t, top)
    ensures Backed(db, n, t) ==> Whole(CommitNode(db, n).db, t, top)
    decreases n
  {
    match n
    case Nil => T.RefOfValue(t);
    case Value(_) => T.RefOfValue(t);
    case Hash(_) => RefForBig(t, top);
    case Short(_, c, f) =>
      if f.hash.Some? && !f.dirty {
        RefForBig(t, top);
      } else {
        CommitNodeCommits(db, c, t.sub, false);
        CommitShort(db, n, t, top);
      }
    case Full(a, b, c, f) =>
      if f.hash.Some? && !f.dirty {
        RefForBig(t, top);
      } else {
        CommitNodeCommits(db, a, t.c0, false);
        var db1 := CommitNode(db, a).db;
        if Backed(db, b, t.c1) {
          BackedMono(db, db1, b, t.c1);
        }
        CommitNodeCommits(db1, b, t.c1, false);
        CommitFull(db, n, t, top);
      }
  }

  lemma CommitShort(db: Store, n: Node, t: T.Tree, top: bool)
    requires Ready(db, n, t, top) && n.Short? && !(n.flags.hash.Some? && !n.flags.dirty)
    requires Commits(db, CommitNode(db, n.child), t.sub, false)
    requires Backed(db, n.child, t.sub) ==> Stored(CommitNode(db, n.child).db, t.sub)
    ensures Commits(db, CommitNode(db, n), t, top)
    ensures Backed(db, n, t) ==> Whole(CommitNode(db, n).db, t, top)
  {
    var r := CommitNode(db, n.child);
    var item := List([T.KeyItem(n.key), r.ref]);
    assert item == T.Enc(t);
    assert Represents(n.child, t.sub, false);
    assert n.child.Full? || n.child.Hash? || n.child.Value?;
    assert CommitNode(db, n) == Save(r.db, item, n.flags.hash);
    SaveCommits(r.db, item, n.flags.hash, t, top);
  }

  lemma CommitFull(db: Store, n: Node, t: T.Tree, top: bool)
    requires Ready(db, n, t, top) && n.Full? && !(n.flags.hash.Some? && !n.flags.dirty)
    requires Commits(db, CommitNode(db, n.c0), t.c0, false)
    requires Commits(CommitNode(db, n.c0).db, CommitNode(CommitNode(db, n.c0).db, n.c1), t.c1, false)
    requires Backed(db, n.c0, t.c0) ==> Stored(CommitNode(db, n.c0).db, t.c0)
    requires Backed(db, n.c1, t.c1) ==> Stored(CommitNode(CommitNode(db, n.c0).db, n.c1).db, t.c1)
    ensures Commits(db, CommitNode(db, n), t, top)
    ensures Backed(db, n, t) ==> Whole(CommitNode(db, n).db, t, top)
  {
    var x := CommitNode(db, n.c0);
    var y := CommitNode(x.db, n.c1);
    T.RefOfValue(t.c2);
    assert Represents(n.c2, t.c2, false);
    var item := List([x.ref, y.ref, HashNode(n.c2, false).ref]);
    assert item == T.Enc(t);
    if Backed(db, n, t) {
      StoredMono(x.db, y.db, t.c0);
    }
    SaveCommits(y.db, item, n.flags.hash, t, top);
  }
}
