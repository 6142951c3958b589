/**
  Committing a trie hands nodes to the database children first: whatever a written node refers to
  is stored before it, which is what the database asks of its callers.
 */
module CommitOrder {
  import opened Encoding
  import opened Rlp
  import opened Nodes
  import opened NodeCache
  import opened Hasher
  import opened Committer
  import T = Trees

  /** If everything below a node is stored, so is everything its encoding refers to. */
  lemma {:induction false} RefsStored(db: Store, t: T.Tree, c: Blob)
    requires T.Canon(t) && c in HashRefs(T.Enc(t))
    requires t.Ext? ==> Stored(db, t.sub)
    requires t.Branch? ==> Stored(db, t.c0) && Stored(db, t.c1)
    ensures c in db
    decreases t, 0
  {
    var items := T.Enc(t).items;
    match t
    case Ext(k, s) =>
      T.CanonPath(k, s);
      CompactRoundTrip(k);
      assert items[1] == T.Ref(s);
      KidRefsStored(db, s, c);
    case Branch(a, b, _) =>
      assert items[0] == T.Ref(a) && items[1] == T.Ref(b);
      if c in RefsOf(T.Ref(a)) {
        KidRefsStored(db, a, c);
      } else {
        KidRefsStored(db, b, c);
      }
  }

  lemma {:induction false} KidRefsStored(db: Store, t: T.Tree, c: Blob)
    requires T.Root(t) && Stored(db, t) && c in RefsOf(T.Ref(t))
    ensures c in db
    decreases t, 1
  {
    if !t.Nil? {
      T.RefOfCanon(t);
      if Size(T.Enc(t)) < HASH_LEN {
        RefsStored(db, t, c);
      }
    }
  }

  lemma SaveClosed(db: Store, t: T.Tree, hash: Option<Blob>)
    requires StoreOk(db) && Closed(db) && T.Canon(t)
    requires t.Ext? ==> Stored(db, t.sub)
    requires t.Branch? ==> Stored(db, t.c0) && Stored(db, t.c1)
    ensures Closed(Save(db, T.Enc(t), hash).db)
  {
    var r := Save(db, T.Enc(t), hash).db;
    forall h, c | h in r && c in HashRefs(r[h])
      ensures c in r
    {
      if r[h] == T.Enc(t) {
        RefsStored(db, t, c);
      } else {
        assert h in db && r[h] == db[h];
      }
    }
  }

  /** If every node left unloaded can be read, a commit keeps the store closed at every single write. */
  lemma {:induction false} CommitClosed(db: Store, n: Node, t: T.Tree, top: bool)
    requires Ready(db, n, t, top) && Backed(db, n, t) && Closed(db)
    ensures Closed(CommitNode(db, n).db)
    decreases n
  {
    match n
    case Nil =>
    case Value(_) =>
    case Hash(_) =>
    case Short(_, c, f) =>
      if !(f.hash.Some? && !f.dirty) {
        CommitNodeCommits(db, c, t.sub, false);
        CommitClosed(db, c, t.sub, false);
        ShortClosed(db, n, t, top);
      }
    case Full(a, b, c, f) =>
      if !(f.hash.Some? && !f.dirty) {
        CommitNodeCommits(db, a, t.c0, false);
        CommitClosed(db, a, t.c0, false);
        var db1 := CommitNode(db, a).db;
        BackedMono(db, db1, b, t.c1);
        CommitNodeCommits(db1, b, t.c1, false);
        CommitClosed(db1, b, t.c1, false);
        FullClosed(db, n, t, top);
      }
  }

  lemma ShortClosed(db: Store, n: Node, t: T.Tree, top: bool)
    requires Ready(db, n, t, top) && n.Short? && !(n.flags.hash.Some? && !n.flags.dirty)
    requires Commits(db, CommitNode(db, n.child), t.sub, false) && Closed(CommitNode(db, n.child).db)
    requires Stored(CommitNode(db, n.child).db, t.sub)
    ensures Closed(CommitNode(db, n).db)
  {
    var r := CommitNode(db, n.child);
    assert Represents(n.child, t.sub, false);
    assert n.child.Full? || n.child.Hash? || n.child.Value?;
    assert List([T.KeyItem(n.key), r.ref]) == T.Enc(t);
    assert CommitNode(db, n) == Save(r.db, T.Enc(t), n.flags.hash);
    SaveClosed(r.db, t, n.flags.hash);
  }

  lemma FullClosed(db: Store, n: Node, t: T.Tree, top: bool)
    requires Ready(db, n, t, top) && n.Full? && !(n.flags.hash.Some? && !n.flags.dirty)
    requires Commits(db, CommitNode(db, n.c0), t.c0, false)
    requires Commits(CommitNode(db, n.c0).db, CommitNode(CommitNode(db, n.c0).db, n.c1), t.c1, false)
    requires Stored(CommitNode(db, n.c0).db, t.c0) && Stored(CommitNode(CommitNode(db, n.c0).db, n.c1).db, t.c1)
    requires Closed(CommitNode(CommitNode(db, n.c0).db, n.c1).db)
    ensures Closed(CommitNode(db, n).db)
  {
    var x := CommitNode(db, n.c0);
    var y := CommitNode(x.db, n.c1);
    T.RefOfValue(t.c2);
    assert Represents(n.c2, t.c2, false);
    assert List([x.ref, y.ref, HashNode(n.c2, false).ref]) == T.Enc(t);
    StoredMono(x.db, y.db, t.c0);
    SaveClosed(y.db, t, n.flags.hash);
  }
}
