/**
  A trie on top of the node database: committing hands every node to Insert, children first, and a
  root that is held can be reopened whatever else happens to the database in between.
 */
module TrieDatabase {
  import opened Encoding
  import opened Rlp
  import opened Nodes
  import opened NodeCache
  import opened Hasher
  import opened Committer
  import opened CommitOrder
  import opened TrieObject
  import opened Database
  import T = Trees

  // ----- committing through the database

  lemma ShortReady(db: Store, n: Node, t: T.Tree, top: bool)
    requires Ready(db, n, t, top) && Backed(db, n, t) && n.Short? && !(n.flags.hash.Some? && !n.flags.dirty)
    ensures t.Ext? && Ready(db, n.child, t.sub, false) && Backed(db, n.child, t.sub)
  {
  }

  /** What is stored for a short node: its encoding, which refers to nodes that are there by now. */
  lemma ShortItem(db: Store, n: Node, t: T.Tree, top: bool)
    requires Ready(db, n, t, top) && Backed(db, n, t) && n.Short? && !(n.flags.hash.Some? && !n.flags.dirty)
    ensures var r := if n.child.Full? then CommitNode(db, n.child) else Committed(HashNode(n.child, false).ref, db);
            && T.Canon(t) && List([T.KeyItem(n.key), r.ref]) == T.Enc(t) && Extends(db, r.db)
            && (n.flags.hash.Some? ==> n.flags.hash.value == Keccak(T.Enc(t)))
            && forall c :: c in HashRefs(T.Enc(t)) ==> c in r.db
  {
    ShortReady(db, n, t, top);
    CommitNodeCommits(db, n.child, t.sub, false);
    var r := CommitNode(db, n.child);
    assert n.child.Full? || n.child.Hash? || n.child.Value?;
    forall c | c in HashRefs(T.Enc(t))
      ensures c in r.db
    {
      RefsStored(r.db, t, c);
    }
  }

  lemma FullReady(db: Store, n: Node, t: T.Tree, top: bool)
    requires Ready(db, n, t, top) && Backed(db, n, t) && n.Full? && !(n.flags.hash.Some? && !n.flags.dirty)
    ensures t.Branch? && Ready(db, n.c0, t.c0, false) && Backed(db, n.c0, t.c0)
    ensures var d := CommitNode(db, n.c0).db; Ready(d, n.c1, t.c1, false) && Backed(d, n.c1, t.c1)
  {
    CommitNodeCommits(db, n.c0, t.c0, false);
    BackedMono(db, CommitNode(db, n.c0).db, n.c1, t.c1);
  }

  lemma FullItem(db: Store, n: Node, t: T.Tree, top: bool)
    requires Ready(db, n, t, top) && Backed(db, n, t) && n.Full? && !(n.flags.hash.Some? && !n.flags.dirty)
    ensures var x := CommitNode(db, n.c0);
            var y := CommitNode(x.db, n.c1);
            && T.Canon(t) && List([x.ref, y.ref, HashNode(n.c2, false).ref]) == T.Enc(t)
            && (n.flags.hash.Some? ==> n.flags.hash.value == Keccak(T.Enc(t)))
            && forall c :: c in HashRefs(T.Enc(t)) ==> c in y.db
  {
    FullReady(db, n, t, top);
    var x := CommitNode(db, n.c0);
    var y := CommitNode(x.db, n.c1);
    CommitNodeCommits(db, n.c0, t.c0, false);
    CommitNodeCommits(x.db, n.c1, t.c1, false);
    T.RefOfValue(t.c2);
    assert Represents(n.c2, t.c2, false);
    StoredMono(x.db, y.db, t.c0);
    forall c | c in HashRefs(T.Enc(t))
      ensures c in y.db
    {
      RefsStored(y.db, t, c);
    }
  }

  /** A node without a hash is a small one, stored in its parent. */
  method StoreNode(db: Database, item: Item, hash: Option<Blob>) returns (ref: Item)
    requires db.Valid() && (hash.Some? ==> hash.value == Keccak(item))
    requires forall c :: c in HashRefs(item) ==> c in db.Contents()
    modifies db
    ensures db.Valid() && db.disk == old(db.disk) && db.Roots() == old(db.Roots())
    ensures Committed(ref, db.Contents()) == Save(old(db.Contents()), item, hash)
  {
    if hash.None? {
      return item;
    }
    db.Insert(hash.value, item);
    ref := Str(hash.value);
  }

  /** The committer on the database: every node it hands over finds its children there. */
  method CommitInto(db: Database, n: Node, ghost t: T.Tree, ghost top: bool) returns (ref: Item)
    requires db.Valid() && Ready(db.Contents(), n, t, top) && Backed(db.Contents(), n, t)
    modifies db
    ensures db.Valid() && db.disk == old(db.disk) && db.Roots() == old(db.Roots())
    ensures Committed(ref, db.Contents()) == CommitNode(old(db.Contents()), n)
    decreases n
  {
    match n {
      case Short(k, c, f) =>
        if f.hash.Some? && !f.dirty {
          return Str(f.hash.value);
        }
        ShortReady(db.Contents(), n, t, top);
        ShortItem(db.Contents(), n, t, top);
        var kid := HashNode(c, false).ref;
        if c.Full? {
          kid := CommitInto(db, c, t.sub, false);
        }
        ref := StoreNode(db, List([T.KeyItem(k), kid]), f.hash);
      case Full(a, b, c, f) =>
        if f.hash.Some? && !f.dirty {
          return Str(f.hash.value);
        }
        FullReady(db.Contents(), n, t, top);
        FullItem(db.Contents(), n, t, top);
        var x := CommitInto(db, a, t.c0, false);
        var y := CommitInto(db, b, t.c1, false);
        ref := StoreNode(db, List([x, y, HashNode(c, false).ref]), f.hash);
      case _ => ref := LeafRef(n);
    }
  }

  /** The trie reads through the database. */
  ghost predicate On(trie: Trie, db: Database)
    reads trie, db
  {
    db.Valid() && trie.Complete() && trie.db == db.Contents()
  }

  /** Afterwards the database holds the trie under the returned root. */
  method CommitTrie(db: Database, trie: Trie) returns (h: Blob)
    requires On(trie, db)
    modifies db, trie
    ensures On(trie, db) && trie.tree == old(trie.tree) && h == T.RootHash(trie.tree)
    ensures db.disk == old(db.disk) && db.Roots() == old(db.Roots()) && Extends(old(db.Contents()), db.Contents())
    ensures !trie.tree.Nil? ==> h in db.Contents()
  {
    NilRoot(trie.tree);
    if trie.root == Node.Nil {
      return EMPTY_ROOT;
    }
    h := trie.Hash();
    var clean := match trie.root case Short(_, _, f) => !f.dirty case Full(_, _, _, f) => !f.dirty case _ => false;
    if clean {
      return;
    }
    CommitDirty(db, trie);
  }

  method CommitDirty(db: Database, trie: Trie)
    requires On(trie, db) && AllHashed(trie.root, trie.tree, true) && trie.root != Node.Nil
    modifies db, trie
    ensures On(trie, db) && trie.tree == old(trie.tree) && T.RootHash(trie.tree) in db.Contents()
    ensures db.disk == old(db.disk) && db.Roots() == old(db.Roots()) && Extends(old(db.Contents()), db.Contents())
  {
    ghost var t, r := trie.tree, CommitNode(trie.db, trie.root);
    CommittedRoot(trie.db, trie.root, t);
    var ref := CommitInto(db, trie.root, t, true);
    assert ref == r.ref && db.Contents() == r.db;
    var store := View(db.dirties, db.disk);
    trie.db, trie.root := store, Node.Hash(ref.blob);
    assert trie.Complete() && db.Contents() == store;
  }

  /** What a commit leaves: the hash of the root, and everything below it in the store. */
  lemma CommittedRoot(db: Store, n: Node, t: T.Tree)
    requires StoreOk(db) && Represents(n, t, true) && AllHashed(n, t, true) && T.Root(t) && Backed(db, n, t)
    requires n != Node.Nil
    ensures Ready(db, n, t, true)
    ensures var r := CommitNode(db, n); var h := T.RootHash(t);
            && r.ref == Str(h) && h in r.db && StoreOk(r.db) && Extends(db, r.db)
            && Represents(Hash(h), t, true) && Backed(r.db, Hash(h), t)
  {
    CommitNodeCommits(db, n, t, true);
  }

  // ----- whatever happens in between

  /** What others do to the database. */
  datatype Op = Adds(item: Item) | Caps(n: nat) | Commits(root: Blob) | Holds(root: Blob) | Drops(root: Blob)

  /** The root is held, or on disk for good; that of the empty trie needs neither. */
  ghost predicate Held(db: Database, root: Blob)
    reads db
  {
    db.Valid() && (root == EMPTY_ROOT || root in db.Roots() || root in db.disk)
  }

  method HasAll(db: Database, refs: seq<Blob>) returns (ok: bool)
    requires db.Valid()
    ensures ok <==> forall c :: c in refs ==> c in db.Contents()
  {
    for i := 0 to |refs|
      invariant forall j :: 0 <= j < i ==> refs[j] in db.Contents()
    {
      var r := db.Node(refs[i]);
      if r.None? {
        return false;
      }
    }
    ok := true;
  }

  /**
    One such operation: inserts come with their children, and only references that others hold are
    dropped. The reference to root that is held here is not theirs.
   */
  method Perform(db: Database, op: Op, root: Blob)
    requires Held(db, root) && root != ZERO
    modifies db
    ensures Held(db, root)
  {
    match op {
      case Adds(item) =>
        var ok := HasAll(db, HashRefs(item));
        if ok {
          db.Insert(Keccak(item), item);
        }
      case Caps(n) => db.Cap(n);
      case Commits(r) =>
        if r != ZERO {
          db.Commit(r);
        }
      case Holds(r) =>
        if r != ZERO {
          db.Reference(r, ZERO);
        }
      case Drops(r) =>
        var roots := db.dirties[ZERO].children;
        if r in roots && r != ZERO && (r == root ==> roots[r] > 1) {
          db.Dereference(r);
        }
    }
  }

  /** A trie that is committed and held reopens as the same map after any operations of others. */
  method CommitHoldReopen(db: Database, trie: Trie, ops: seq<Op>) returns (copy: Trie)
    requires On(trie, db)
    modifies db, trie
    ensures On(copy, db) && fresh(copy) && copy.tree == old(trie.tree)
  {
    ghost var t := trie.tree;
    var root := CommitTrie(db, trie);
    NilRoot(t);
    db.Reference(root, ZERO);
    for i := 0 to |ops|
      invariant Held(db, root)
    {
      Perform(db, ops[i], root);
    }
    HeldReadable(db, t);
    var store := View(db.dirties, db.disk);
    KeptView(db.Value(), db.order);
    copy := new Trie(store);
    var r := copy.Open(root, store, t);
  }

  lemma HeldReadable(db: Database, t: T.Tree)
    requires Held(db, T.RootHash(t)) && T.Root(t)
    ensures t.Nil? || (Readable(db.Contents(), t) && T.RootHash(t) in db.Contents())
  {
    NilRoot(t);
    KeptView(db.Value(), db.order);
    if !t.Nil? {
      ClosedReadable(db.Contents(), t);
    }
  }
}
