/**
  The trie object: a root, the node store behind it and a count of changes since the last hashing.
  The ghost field tree is the map it stands for, in canonical form.
 */
module TrieObject {
  import opened Encoding
  import opened Rlp
  import opened Nodes
  import opened LazyTrie
  import opened Hasher
  import opened Committer
  import NodeCache
  import CommitOrder
  import T = Trees

  /** A trie with this root can be opened: the zero hash, too, stands for the empty trie. */
  ghost predicate HasRoot(store: Store, root: Blob) {
    root == NodeCache.ZERO || root == EMPTY_ROOT || root in store
  }

  /** The root is one for t. */
  ghost predicate Names(root: Blob, t: T.Tree) {
    T.Root(t) && (root == T.RootHash(t) || (root == NodeCache.ZERO && t.Nil?))
  }

  /** What opening a root comes to; a stored node that does not decode is a panic. */
  function Opening(store: Store, root: Blob): Outcome<()> {
    if root == NodeCache.ZERO || root == EMPTY_ROOT then Done(())
    else
      var n := Resolve(store, root);
      if n.Done? then Done(()) else if n.Missing? then Missing(root) else Panic
  }

  lemma NilRoot(t: T.Tree)
    requires T.Root(t)
    ensures T.RootHash(t) == EMPTY_ROOT <==> t.Nil?
  {
    if !t.Nil? {
      T.RefOfCanon(t);
    }
  }

  class Trie {
    var db: Store
    var root: Node
    var unhashed: nat
    ghost var tree: T.Tree

    ghost predicate Valid()
      reads this
    {
      StoreOk(db) && Represents(root, tree, true) && T.Root(tree)
    }

    /** No operation can run into a missing node. */
    ghost predicate Complete()
      reads this
    {
      Valid() && Backed(db, root, tree)
    }

    constructor (store: Store)
      requires StoreOk(store)
      ensures Complete() && tree == T.Nil && db == store
    {
      db := store;
      root := Nil;
      unhashed := 0;
      tree := T.Nil;
    }

    /** Opens the trie with a given root, if that is known: as t, if it is a root for t. */
    method Open(hash: Blob, store: Store, ghost t: T.Tree) returns (r: Outcome<()>)
      requires StoreOk(store)
      modifies this
      ensures r == Opening(store, hash) && db == store && (r.Missing? <==> !HasRoot(store, hash))
      ensures HasRoot(store, hash) && Names(hash, t) ==> r.Done? && Valid() && tree == t
      ensures r.Done? && Names(hash, t) && (t.Nil? || Readable(store, t)) ==> Complete()
    {
      db, root, unhashed, tree := store, Nil, 0, t;
      if Names(hash, t) {
        NilRoot(t);
      }
      if hash != NodeCache.ZERO && hash != EMPTY_ROOT {
        if hash in store && Names(hash, t) {
          ResolveRepresents(store, hash, t, true);
        }
        var n := Resolve(store, hash);
        if n.Missing? {
          return Missing(hash);
        }
        if !n.Done? {
          return Panic;
        }
        root := n.value;
      }
      r := Done(());
    }

    method TryGet(key: seq<byte>) returns (r: Outcome<Option<Blob>>)
      requires Valid()
      modifies `root
      ensures Valid() && (old(Complete()) ==> Complete())
      ensures r.Done? ==> r.value == T.Get(tree, KeyToBinary(key))
      ensures r.Done? || (r.Missing? && r.hash !in db && !old(Complete()) && root == old(root))
    {
      var k := KeybytesToBinary(key);
      LookupRefines(db, root, tree, true, k);
      var f := Lookup(db, root, k);
      if f.Missing? {
        return Missing(f.hash);
      }
      if f.value.didResolve {
        root := f.value.node;
      }
      r := Done(f.value.value);
    }

    /** An empty value deletes the key. On a missing node nothing but the change count changes. */
    method TryUpdate(key: seq<byte>, value: Blob) returns (r: Outcome<()>)
      requires Valid()
      modifies `root, `unhashed, `tree
      ensures Valid() && (old(Complete()) ==> Complete())
      ensures r.Done? ==> tree == if Len(value) > 0 then T.Put(old(tree), KeyToBinary(key), T.Val(value))
                                  else T.Cut(old(tree), KeyToBinary(key))
      ensures r.Done? || (r.Missing? && r.hash !in db && !old(Complete()) && root == old(root) && tree == old(tree))
    {
      unhashed := unhashed + 1;
      var k := KeybytesToBinary(key);
      var u;
      ghost var next;
      if Len(value) != 0 {
        InsertRefines(db, root, tree, true, k, value);
        u := Insert(db, root, k, Value(value));
        T.PutCanon(tree, k, T.Val(value));
        next := T.Put(tree, k, T.Val(value));
      } else {
        DeleteRefines(db, root, tree, true, k);
        u := Delete(db, root, k);
        T.CutCanon(tree, k);
        next := T.Cut(tree, k);
      }
      if u.Missing? {
        return Missing(u.hash);
      }
      root := u.value.node;
      tree := next;
      r := Done(());
    }

    method TryDelete(key: seq<byte>) returns (r: Outcome<()>)
      requires Valid()
      modifies `root, `unhashed, `tree
      ensures Valid() && (old(Complete()) ==> Complete())
      ensures r.Done? ==> tree == T.Cut(old(tree), KeyToBinary(key))
      ensures r.Done? || (r.Missing? && r.hash !in db && !old(Complete()) && root == old(root) && tree == old(tree))
    {
      unhashed := unhashed + 1;
      var k := KeybytesToBinary(key);
      DeleteRefines(db, root, tree, true, k);
      T.CutCanon(tree, k);
      var u := Delete(db, root, k);
      if u.Missing? {
        return Missing(u.hash);
      }
      root := u.value.node;
      tree := T.Cut(tree, k);
      r := Done(());
    }

    /** Caches hashes all over the trie; the map it stands for does not change. */
    method Hash() returns (h: Blob)
      requires Valid()
      modifies `root, `unhashed
      ensures h == T.RootHash(tree)
      ensures Valid() && (old(Complete()) ==> Complete())
      ensures AllHashed(root, tree, true)
    {
      if root == Nil {
        return EMPTY_ROOT;
      }
      HashRefines(db, root, tree, true);
      var r := HashNode(root, true);
      unhashed := 0;
      root := r.node;
      h := r.ref.blob;
    }

    /** If no node is missing, the whole trie can be read back afterwards under the returned root. */
    method Commit() returns (h: Blob)
      requires Valid()
      modifies `db, `root, `unhashed
      ensures h == T.RootHash(tree)
      ensures Valid() && Extends(old(db), db)
      ensures old(Complete()) ==> Complete() && (T.Canon(tree) ==> Readable(db, tree))
      ensures old(Complete()) && NodeCache.Closed(old(db)) ==> NodeCache.Closed(db)
    {
      if root == Nil {
        return EMPTY_ROOT;
      }
      h := Hash();
      var clean := match root case Short(_, _, f) => !f.dirty case Full(_, _, _, f) => !f.dirty case _ => false;
      if clean {
        return;
      }
      CommitNodeCommits(db, root, tree, true);
      if Complete() && NodeCache.Closed(db) {
        CommitOrder.CommitClosed(db, root, tree, true);
      }
      var c := CommitNode(db, root);
      db := c.db;
      root := Node.Hash(c.ref.blob);
    }
  }

  /** A trie committed and reopened by its root stands for the same map and never misses a node. */
  method CommitThenReopen(trie: Trie) returns (copy: Trie)
    requires trie.Complete()
    modifies trie
    ensures trie.Complete() && trie.tree == old(trie.tree)
    ensures copy.Complete() && copy.tree == trie.tree
  {
    var h := trie.Commit();
    NilRoot(trie.tree);
    copy := new Trie(trie.db);
    var r := copy.Open(h, trie.db, trie.tree);
  }
}
