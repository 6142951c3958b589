/**
  The streaming trie builder. Nodes are changed in place, and a subtree is replaced by its
  encoding as soon as no later key can fall into it. The ghost field tree is the canonical trie
  of everything inserted below a node so far.
 */
module StackTrie {
  import opened Encoding
  import opened Rlp
  import opened KeyOrder
  import R = TrieRuns
  import T = Trees

  datatype Kind = EmptyNode | BranchNode | ExtNode | LeafNode | HashedNode

  /** What insertion of a full key into a node means for the node's tree. */
  function Rest(key: seq<byte>, offset: nat): (r: seq<byte>)
    requires offset <= |key|
  {
    key[offset..] + [2]
  }

  lemma RestDrop(key: seq<byte>, offset: nat, n: nat)
    requires offset + n <= |key|
    ensures Rest(key, offset)[n..] == Rest(key, offset + n)
    ensures Rest(key, offset)[..n] == key[offset..offset + n]
  {
  }

  /** What the next key does at a full node: it goes one symbol down, to the right. */
  lemma BranchStep(t: T.Tree, k: seq<byte>, offset: nat, v: Blob)
    requires t.Branch? && offset <= |k| && Right(t, Rest(k, offset))
    ensures offset < |k| && k[offset] == 1 && Right(t.c1, Rest(k, offset + 1))
    ensures T.Put(t, Rest(k, offset), T.Val(v)) == T.Branch(t.c0, T.Put(t.c1, Rest(k, offset + 1), T.Val(v)), t.c2)
  {
    RestDrop(k, offset, 1);
    assert Rest(k, offset)[0] == k[offset];
  }

  lemma DescendStep(t: T.Tree, k: seq<byte>, offset: nat, v: Blob)
    requires t.Ext? && offset <= |k| && Right(t, Rest(k, offset)) && PrefixLen(Rest(k, offset), t.key) == |t.key|
    ensures offset + |t.key| <= |k| && t.sub.Branch? && Right(t.sub, Rest(k, offset + |t.key|))
    ensures var c := T.Put(t.sub, Rest(k, offset + |t.key|), T.Val(v));
            c.Branch? && T.Put(t, Rest(k, offset), T.Val(v)) == T.Ext(t.key, c)
  {
    RestDrop(k, offset, |t.key|);
  }

  /** A branch of an old subtree and a new leaf, below an extension if there is a common path. */
  function Forked(path: seq<byte>, older: T.Tree, rest: seq<byte>, v: Blob): T.Tree {
    T.Graft(path, T.Branch(older, T.Ext(rest, T.Val(v)), T.Nil))
  }

  /** Leaving a short node's key after m symbols makes a branch of the old rest and a new leaf. */
  lemma SplitStep(t: T.Tree, k: seq<byte>, offset: nat, v: Blob, m: nat)
    requires t.Ext? && offset <= |k| && Right(t, Rest(k, offset)) && PrefixLen(Rest(k, offset), t.key) == m < |t.key|
    ensures offset + m + 1 <= |k| && k[offset + m] == 1 && t.key[m] == 0
    ensures T.Put(t, Rest(k, offset), T.Val(v)) ==
            Forked(t.key[..m], T.Graft(t.key[m + 1..], t.sub), Rest(k, offset + m + 1), v)
  {
    var rest := Rest(k, offset);
    RestDrop(k, offset, m + 1);
    assert rest[m] == k[offset + m];
    assert T.Graft(rest[m + 1..], T.Val(v)) == T.Ext(Rest(k, offset + m + 1), T.Val(v));
    assert T.Fork(0, T.Graft(t.key[m + 1..], t.sub), 1, T.Graft(rest[m + 1..], T.Val(v)))
        == T.Branch(T.Graft(t.key[m + 1..], t.sub), T.Ext(Rest(k, offset + m + 1), T.Val(v)), T.Nil);
  }

  /** A leaf is always split: no key is inserted twice. */
  lemma LeafStep(t: T.Tree, key: seq<byte>, k: seq<byte>, offset: nat, v: Blob, m: nat)
    requires T.Canon(t) && t.Ext? && t.sub.Val? && t.key == key + [2] && offset <= |k|
    requires Right(t, Rest(k, offset)) && m == PrefixLen(Rest(k, offset), key)
    ensures m < |key| && offset + m + 1 <= |k| && T.Canon(T.Ext(key[m + 1..] + [2], t.sub))
    ensures T.Put(t, Rest(k, offset), T.Val(v)) ==
            Forked(key[..m], T.Ext(key[m + 1..] + [2], t.sub), Rest(k, offset + m + 1), v)
  {
    LeafPrefix(Rest(k, offset), key, m);
    SplitStep(t, k, offset, v, m);
    T.GraftCanon(t.key, m, t.sub);
    assert t.key[m + 1..] == key[m + 1..] + [2] && t.key[..m] == key[..m];
  }

  lemma LeafPrefix(rest: seq<byte>, key: seq<byte>, m: nat)
    requires |rest| == |key| + 1 && rest[|key|] == 2 && m == PrefixLen(rest, key)
    ensures PrefixLen(rest, key + [2]) == if m == |key| then m + 1 else m
  {
    var full := key + [2];
    if m == |key| {
      assert rest == rest[..m] + [2] && full == key[..m] + [2];
      PrefixLenUnique(rest, full, m + 1);
    } else {
      assert full[..m] == key[..m];
      PrefixLenUnique(rest, full, m);
    }
  }

  class Node {
    var nodeType: Kind
    var val: Blob
    var enc: Item        // the encoding or hash of a hashed node; the source keeps it in val
    var key: seq<byte>
    var keyOffset: nat
    var child0: Node?
    var child1: Node?
    ghost var tree: T.Tree
    ghost var open: bool  // the path that later keys take is not hashed yet
    ghost var Repr: set<object>

    ghost predicate Valid()
      reads this, Repr
      decreases Repr
    {
      && this in Repr
      && (child0 != null ==> child0 in Repr && child0.Repr < Repr && this !in child0.Repr && child0.Valid())
      && (child1 != null ==> child1 in Repr && child1.Repr < Repr && this !in child1.Repr && child1.Valid())
      && (child0 != null && child1 != null ==> child0.Repr !! child1.Repr)
      && (match nodeType
         case EmptyNode => child0 == null && child1 == null && tree.Nil?
         case LeafNode => child0 == null && child1 == null && tree == T.Ext(key + [2], T.Val(val))
         case ExtNode =>
           child0 != null && child1 == null && tree == T.Ext(key, child0.tree) && child0.tree.Branch?
         case BranchNode =>
           child0 != null && child1 != null && tree == T.Branch(child0.tree, child1.tree, T.Nil)
         case HashedNode =>
           child0 == null && child1 == null && if tree.Nil? then enc == Str(EMPTY_ROOT) else enc == T.Ref(tree))
      && (open ==>
            && nodeType != HashedNode
            && (nodeType == ExtNode ==> child0.open && child0.keyOffset == keyOffset + |key|)
            && (nodeType == BranchNode ==>
                child1.open && child1.keyOffset == keyOffset + 1 && child0.nodeType == HashedNode))
    }

    /** The nodes in memory. */
    ghost function Live(): nat
      requires Valid()
      reads this, Repr
      decreases Repr
    {
      1 + (if child0 == null then 0 else child0.Live()) + if child1 == null then 0 else child1.Live()
    }

    constructor ()
      ensures Valid() && open && nodeType == EmptyNode && keyOffset == 0 && fresh(Repr) && Repr == {this}
    {
      nodeType := EmptyNode;
      val, enc, key, keyOffset := Raw([]), EMPTY_ITEM, [], 0;
      child0, child1 := null, null;
      tree, open := T.Nil, true;
      Repr := {this};
    }

    constructor Leaf(offset: nat, k: seq<byte>, v: Blob)
      ensures Valid() && open && fresh(Repr) && Repr == {this} && keyOffset == offset
      ensures nodeType == LeafNode && tree == T.Ext(k + [2], T.Val(v))
    {
      nodeType := LeafNode;
      val, enc, key, keyOffset := v, EMPTY_ITEM, k, offset;
      child0, child1 := null, null;
      tree, open := T.Ext(k + [2], T.Val(v)), true;
      Repr := {this};
    }

    constructor Extension(offset: nat, k: seq<byte>, c: Node)
      requires c.Valid() && c.tree.Branch?
      ensures Valid() && fresh(Repr - c.Repr) && Repr == {this} + c.Repr && keyOffset == offset
      ensures tree == T.Ext(k, c.tree)
    {
      nodeType := ExtNode;
      val, enc, key, keyOffset := Raw([]), EMPTY_ITEM, k, offset;
      child0, child1 := c, null;
      tree, open := T.Ext(k, c.tree), false;
      Repr := {this} + c.Repr;
    }

    /** Replaces the subtree by its encoding, or by the hash of it from 32 bytes on. */
    method HashSelf()
      requires Valid() && T.Root(tree)
      modifies Repr
      ensures Valid() && nodeType == HashedNode && tree == old(tree) && Repr <= old(Repr)
      ensures keyOffset == old(keyOffset)
      decreases Repr, 1
    {
      if nodeType == HashedNode {
        return;
      }
      var item;
      match nodeType {
        case BranchNode => item := BranchItem();
        case ExtNode => item := ExtItem();
        case LeafNode => item := LeafItem();
        case EmptyNode =>
          BecomeHashed(Str(EMPTY_ROOT));
          return;
      }
      BecomeHashed(if Size(item) < HASH_LEN then item else Str(Keccak(item)));
    }

    method BecomeHashed(code: Item)
      requires if tree.Nil? then code == Str(EMPTY_ROOT) else code == T.Ref(tree)
      modifies this
      ensures Valid() && nodeType == HashedNode && tree == old(tree) && Repr == {this} && keyOffset == old(keyOffset)
    {
      enc, key, nodeType, open := code, [], HashedNode, false;
      child0, child1, Repr := null, null, {this};
    }

    method BranchItem() returns (item: Item)
      requires Valid() && nodeType == BranchNode && T.Canon(tree)
      modifies child0.Repr, child1.Repr
      ensures item == T.Enc(tree)
      decreases Repr, 0
    {
      var a, b := child0, child1;
      a.HashSelf();
      assert b.Valid() && b.tree == tree.c1;
      b.HashSelf();
      item := List([a.enc, b.enc, EMPTY_ITEM]);
      T.RefOfValue(T.Nil);
    }

    method ExtItem() returns (item: Item)
      requires Valid() && nodeType == ExtNode && T.Canon(tree)
      modifies child0.Repr
      ensures item == T.Enc(tree)
      decreases Repr, 0
    {
      child0.HashSelf();
      T.CanonPath(key, tree.sub);
      var compact := BinaryToCompact(key);
      item := List([Str(Raw(compact)), child0.enc]);
    }

    /** The terminator is appended and the key compacted in its own buffer. */
    method LeafItem() returns (item: Item)
      requires Valid() && nodeType == LeafNode && T.Canon(tree)
      ensures item == T.Enc(tree)
    {
      var full := key + [2];
      T.CanonPath(full, T.Val(val));
      var buf := new byte[|full|](i requires 0 <= i < |full| => full[i]);
      assert buf[..] == full;
      var sz := BinaryToCompactInPlace(buf);
      item := List([Str(Raw(buf[..sz])), Str(val)]);
      T.RefOfValue(T.Val(val));
    }

    constructor Branch(offset: nat, n: Node, o: Node)
      requires n.Valid() && o.Valid() && n.Repr !! o.Repr
      requires o.open && o.keyOffset == offset + 1 && n.nodeType == HashedNode
      ensures Valid() && open && Repr == {this} + n.Repr + o.Repr && fresh(this)
      ensures keyOffset == offset && nodeType == BranchNode && tree == T.Branch(n.tree, o.tree, T.Nil)
    {
      nodeType := BranchNode;
      val, enc, key, keyOffset := Raw([]), EMPTY_ITEM, [], offset;
      child0, child1 := n, o;
      tree, open := T.Branch(n.tree, o.tree, T.Nil), true;
      Repr := {this} + n.Repr + o.Repr;
    }

    method BecomeBranch(n: Node, o: Node)
      requires n.Valid() && o.Valid() && n.Repr !! o.Repr && this !in n.Repr + o.Repr
      requires o.open && o.keyOffset == keyOffset + 1 && n.nodeType == HashedNode
      modifies this
      ensures Valid() && open && keyOffset == old(keyOffset) && Repr == {this} + n.Repr + o.Repr
      ensures tree == T.Branch(n.tree, o.tree, T.Nil)
    {
      nodeType, key, child0, child1, Repr := BranchNode, [], n, o, {};
      Refit();
    }

    method BecomeExt(m: nat, p: Node)
      requires p.Valid() && this !in p.Repr && p.tree.Branch?
      requires 0 < m <= |key| && p.open && p.keyOffset == keyOffset + m
      modifies this
      ensures Valid() && open && keyOffset == old(keyOffset) && Repr == {this} + p.Repr
      ensures tree == T.Ext(old(key)[..m], p.tree)
    {
      nodeType, key, child0, child1 := ExtNode, key[..m], p, null;
      tree, open := T.Ext(key, p.tree), true;
      Repr := {this} + p.Repr;
    }

    /** Turns this node into a branch over n and o, below an extension of m symbols if m > 0. */
    method Split(m: nat, n: Node, o: Node)
      requires n.Valid() && o.Valid() && n.Repr !! o.Repr && this !in n.Repr + o.Repr
      requires m <= |key| && o.open && o.keyOffset == keyOffset + m + 1 && n.nodeType == HashedNode
      modifies this
      ensures Valid() && open && keyOffset == old(keyOffset)
      ensures fresh(Repr - {this} - n.Repr - o.Repr)
      ensures tree == T.Graft(old(key)[..m], T.Branch(n.tree, o.tree, T.Nil))
    {
      if m == 0 {
        BecomeBranch(n, o);
      } else {
        var p := new Node.Branch(keyOffset + m, n, o);
        BecomeExt(m, p);
      }
    }

    method GetDiffIndex(k: seq<byte>) returns (m: nat)
      requires keyOffset + |key| <= |k|
      ensures m == PrefixLen(Rest(k, keyOffset), key)
    {
      ghost var r := Rest(k, keyOffset);
      m := 0;
      while m < |key| && key[m] == k[keyOffset + m]
        invariant m <= |key| && r[..m] == key[..m]
      {
        assert r[m] == k[keyOffset + m];
        assert r[..m + 1] == r[..m] + [r[m]] && key[..m + 1] == key[..m] + [key[m]];
        m := m + 1;
      }
      assert m < |key| ==> r[m] == k[keyOffset + m];
      PrefixLenUnique(r, key, m);
    }

    /** Inserts one more key to the right of all keys so far. */
    method Insert(k: seq<byte>, value: Blob)
      requires Valid() && open && T.Root(tree) && keyOffset <= |k| && Right(tree, Rest(k, keyOffset))
      modifies Repr
      ensures Valid() && open && fresh(Repr - old(Repr)) && keyOffset == old(keyOffset)
      ensures tree == T.Put(old(tree), Rest(k, keyOffset), T.Val(value))
      decreases |k| - keyOffset
    {
      match nodeType {
        case BranchNode => InsertBranch(k, value);
        case ExtNode => InsertExt(k, value);
        case LeafNode => InsertLeaf(k, value);
        case EmptyNode =>
          nodeType, key, val := LeafNode, k[keyOffset..], value;
          tree := T.Ext(key + [2], T.Val(val));
          child0, child1, Repr := null, null, {this};
      }
    }

    method InsertBranch(k: seq<byte>, value: Blob)
      requires Valid() && open && T.Root(tree) && nodeType == BranchNode && keyOffset <= |k|
          && Right(tree, Rest(k, keyOffset))
      modifies Repr
      ensures Valid() && open && fresh(Repr - old(Repr)) && keyOffset == old(keyOffset)
      ensures tree == T.Put(old(tree), Rest(k, keyOffset), T.Val(value))
      decreases |k| - keyOffset, 2
    {
      BranchStep(tree, k, keyOffset, value);
      IntoYounger(k, value);
    }

    /** The older child is closed for good before the key goes into the younger one. */
    method IntoYounger(k: seq<byte>, value: Blob)
      requires Valid() && open && T.Root(tree) && nodeType == BranchNode
      requires keyOffset < |k| && Right(tree.c1, Rest(k, keyOffset + 1))
      modifies Repr
      ensures Valid() && open && fresh(Repr - old(Repr)) && keyOffset == old(keyOffset)
      ensures tree == T.Branch(old(tree).c0, T.Put(old(tree).c1, Rest(k, keyOffset + 1), T.Val(value)), T.Nil)
      decreases |k| - keyOffset, 1
    {
      Close(child0);
      Refit();
      FeedYounger(k, value);
    }

    method FeedYounger(k: seq<byte>, value: Blob)
      requires Valid() && open && nodeType == BranchNode && T.Root(tree.c1)
      requires keyOffset < |k| && Right(tree.c1, Rest(k, keyOffset + 1))
      modifies Repr
      ensures Valid() && open && fresh(Repr - old(Repr)) && keyOffset == old(keyOffset)
      ensures tree == T.Branch(old(tree).c0, T.Put(old(tree).c1, Rest(k, keyOffset + 1), T.Val(value)), T.Nil)
      decreases |k| - keyOffset, 0
    {
      child1.Insert(k, value);
      Refit();
    }

    /** Takes over what became of the children. */
    method Refit()
      requires child0 != null && child1 != null && nodeType == BranchNode
      requires child0.Valid() && child1.Valid() && child0.Repr !! child1.Repr && this !in child0.Repr + child1.Repr
      requires child1.open && child1.keyOffset == keyOffset + 1 && child0.nodeType == HashedNode
      modifies `tree, `Repr, `open
      ensures Valid() && open && Repr == old(Repr) + {this} + child0.Repr + child1.Repr
      ensures tree == T.Branch(child0.tree, child1.tree, T.Nil)
    {
      tree, open := T.Branch(child0.tree, child1.tree, T.Nil), true;
      Repr := Repr + {this} + child0.Repr + child1.Repr;
    }

    /** An elder sibling is hashed unless it is already, which by now it always is. */
    static method Close(n: Node)
      requires n.Valid() && T.Root(n.tree)
      modifies n.Repr
      ensures n.Valid() && n.nodeType == HashedNode && n.tree == old(n.tree) && n.Repr <= old(n.Repr)
    {
      if n.nodeType != HashedNode {
        n.HashSelf();
      }
    }

    method InsertExt(k: seq<byte>, value: Blob)
      requires Valid() && open && T.Root(tree) && nodeType == ExtNode && keyOffset <= |k|
          && Right(tree, Rest(k, keyOffset))
      modifies Repr
      ensures Valid() && open && fresh(Repr - old(Repr)) && keyOffset == old(keyOffset)
      ensures tree == T.Put(old(tree), Rest(k, keyOffset), T.Val(value))
      decreases |k| - keyOffset, 2
    {
      var m := GetDiffIndex(k);
      if m == |key| {
        Descend(k, value);
      } else {
        Break(k, value, m);
      }
    }

    /** The whole key of the node is a prefix. */
    method Descend(k: seq<byte>, value: Blob)
      requires Valid() && open && T.Root(tree) && nodeType == ExtNode && keyOffset <= |k|
          && Right(tree, Rest(k, keyOffset)) && PrefixLen(Rest(k, keyOffset), key) == |key|
      modifies Repr
      ensures Valid() && open && fresh(Repr - old(Repr)) && keyOffset == old(keyOffset)
      ensures tree == T.Put(old(tree), Rest(k, keyOffset), T.Val(value))
      decreases |k| - keyOffset, 1
    {
      DescendStep(tree, k, keyOffset, value);
      IntoChild(k, value, T.Put(tree, Rest(k, keyOffset), T.Val(value)));
    }

    /** It is not: the node is split where the keys differ. */
    method Break(k: seq<byte>, value: Blob, m: nat)
      requires Valid() && open && T.Root(tree) && nodeType == ExtNode && keyOffset <= |k|
          && Right(tree, Rest(k, keyOffset)) && m == PrefixLen(Rest(k, keyOffset), key) < |key|
      modifies Repr
      ensures Valid() && open && fresh(Repr - old(Repr)) && keyOffset == old(keyOffset)
      ensures tree == T.Put(old(tree), Rest(k, keyOffset), T.Val(value))
    {
      SplitStep(tree, k, keyOffset, value, m);
      SplitExt(k, value, m, T.Put(tree, Rest(k, keyOffset), T.Val(value)));
    }

    method IntoChild(k: seq<byte>, value: Blob, ghost u: T.Tree)
      requires Valid() && open && T.Root(tree) && nodeType == ExtNode
      requires |key| > 0 && keyOffset + |key| <= |k| && Right(tree.sub, Rest(k, keyOffset + |key|))
      requires u == T.Ext(key, T.Put(tree.sub, Rest(k, keyOffset + |key|), T.Val(value))) && u.sub.Branch?
      modifies Repr
      ensures Valid() && open && fresh(Repr - old(Repr)) && keyOffset == old(keyOffset) && tree == u
      decreases |k| - keyOffset, 0
    {
      child0.Insert(k, value);
      RefitExt();
    }

    method RefitExt()
      requires child0 != null && child1 == null && nodeType == ExtNode
      requires child0.Valid() && child0.tree.Branch? && this !in child0.Repr
      requires child0.open && child0.keyOffset == keyOffset + |key|
      modifies `tree, `Repr, `open
      ensures Valid() && open && Repr == old(Repr) + {this} + child0.Repr && tree == T.Ext(key, child0.tree)
    {
      tree, open := T.Ext(key, child0.tree), true;
      Repr := Repr + {this} + child0.Repr;
    }

    method SplitExt(k: seq<byte>, value: Blob, m: nat, ghost u: T.Tree)
      requires Valid() && T.Root(tree) && nodeType == ExtNode && m < |key| && keyOffset + m + 1 <= |k|
      requires u == Forked(key[..m], T.Graft(key[m + 1..], tree.sub), Rest(k, keyOffset + m + 1), value)
      modifies Repr
      ensures Valid() && open && fresh(Repr - old(Repr)) && keyOffset == old(keyOffset) && tree == u
    {
      var n := OldRest(m);
      var o := new Node.Leaf(keyOffset + m + 1, k[keyOffset + m + 1..], value);
      Split(m, n, o);
    }

    /** What is left of the old key, if anything, goes into an extension that is hashed at once. */
    method OldRest(m: nat) returns (n: Node)
      requires Valid() && T.Root(tree) && nodeType == ExtNode && m < |key|
      modifies child0.Repr
      ensures n.Valid() && n.tree == T.Graft(key[m + 1..], tree.sub) && n.nodeType == HashedNode
      ensures this !in n.Repr && fresh(n.Repr - old(Repr))
    {
      n := child0;
      if m < |key| - 1 {
        T.GraftCanon(key, m, child0.tree);
        n := new Node.Extension(m + 1, key[m + 1..], child0);
      }
      n.HashSelf();
    }

    method InsertLeaf(k: seq<byte>, value: Blob)
      requires Valid() && T.Root(tree) && nodeType == LeafNode && keyOffset <= |k| && Right(tree, Rest(k, keyOffset))
      modifies Repr
      ensures Valid() && open && fresh(Repr - old(Repr)) && keyOffset == old(keyOffset)
      ensures tree == T.Put(old(tree), Rest(k, keyOffset), T.Val(value))
    {
      var m := GetDiffIndex(k);
      ghost var u := T.Put(tree, Rest(k, keyOffset), T.Val(value));
      LeafStep(tree, key, k, keyOffset, value, m);
      SplitLeaf(k, value, m, u);
    }

    method SplitLeaf(k: seq<byte>, value: Blob, m: nat, ghost u: T.Tree)
      requires Valid() && nodeType == LeafNode && m < |key| && keyOffset + m + 1 <= |k|
      requires T.Canon(T.Ext(key[m + 1..] + [2], T.Val(val)))
      requires u == Forked(key[..m], T.Ext(key[m + 1..] + [2], T.Val(val)), Rest(k, keyOffset + m + 1), value)
      modifies Repr
      ensures Valid() && open && fresh(Repr - old(Repr)) && keyOffset == old(keyOffset) && tree == u
    {
      var n := new Node.Leaf(m + 1, key[m + 1..], val);
      n.HashSelf();
      var o := new Node.Leaf(keyOffset + m + 1, k[keyOffset + m + 1..], value);
      Split(m, n, o);
    }

    method TryUpdate(bytes: seq<byte>, value: Blob)
      requires Valid() && open && T.Root(tree) && keyOffset == 0 && Right(tree, KeyToBinary(bytes))
      modifies Repr
      ensures Valid() && open && fresh(Repr - old(Repr)) && keyOffset == 0
      ensures tree == T.Put(old(tree), KeyToBinary(bytes), T.Val(value))
    {
      var k := KeybytesToBinary(bytes);
      assert Rest(k[..|k| - 1], 0) == k;
      Insert(k[..|k| - 1], value);
    }

    /** The root hash; a root too small to have been hashed is hashed now. */
    method Hash() returns (h: Blob)
      requires Valid() && T.Root(tree)
      modifies Repr
      ensures h == T.RootHash(tree) && tree == old(tree)
      ensures Valid() && nodeType == HashedNode
    {
      HashSelf();
      if !tree.Nil? {
        T.RefOfCanon(tree);
      }
      h := match enc case Str(b) => b case List(_) => Keccak(enc);
    }
  }

  // ----- memory

  /** How far the right side of a tree goes before its last leaf. */
  function RightLen(t: T.Tree): nat {
    match t
    case Ext(k, s) => if s.Val? then 0 else |k| + RightLen(s)
    case Branch(_, b, _) => if b.Nil? then 0 else 1 + RightLen(b)
    case _ => 0
  }

  /** Everything off the right side has been hashed: at most two nodes for each symbol of it are left. */
  lemma {:induction false} LiveBound(n: Node)
    requires n.Valid() && n.open && T.Root(n.tree)
    ensures n.Live() <= 2 * RightLen(n.tree) + 1
    decreases n.Repr
  {
    match n.nodeType
    case BranchNode =>
      assert n.child0.Live() == 1;
      LiveBound(n.child1);
    case ExtNode => LiveBound(n.child0);
    case _ =>
  }

  /** There is a key at the end of the right side. */
  lemma {:induction false} RightKey(t: T.Tree) returns (q: seq<byte>)
    requires T.Canon(t)
    ensures TermKey(q) && T.Get(t, q).Some? && |q| > RightLen(t)
  {
    match t
    case Ext(k, s) =>
      T.CanonPath(k, s);
      if s.Val? {
        q := k;
      } else {
        var r := RightKey(s);
        q := k + r;
      }
    case Branch(_, b, _) =>
      if b.Nil? {
        q := [2];
      } else {
        var r := RightKey(b);
        q := [1] + r;
        assert q[1..] == r;
      }
  }

  // ----- whole runs

  predicate Increasing(ops: seq<R.Op>) {
    && (forall i :: 0 <= i < |ops| ==> ops[i].Update? && Len(ops[i].value) > 0)
    && (forall i, j :: 0 <= i < j < |ops| ==> |ops[i].key| == |ops[j].key| && Less(ops[i].key, ops[j].key))
  }

  lemma NextBelow(t: T.Tree, key: seq<byte>, value: Blob, next: seq<byte>)
    requires T.Root(t) && Len(value) > 0 && Below(t, KeyToBinary(key)) && |key| == |next| && Less(key, next)
    ensures var u := T.Put(t, KeyToBinary(key), T.Val(value)); T.Root(u) && Below(u, KeyToBinary(next))
  {
    var k := KeyToBinary(key);
    T.PutCanon(t, k, T.Val(value));
    KeyOrderPreserved(key, next);
    BelowNext(t, k, T.Val(value), KeyToBinary(next));
  }

  lemma {:induction false} RunBelow(ops: seq<R.Op>, i: nat)
    requires Increasing(ops) && i < |ops|
    ensures T.Root(R.Run(ops[..i])) && Below(R.Run(ops[..i]), KeyToBinary(ops[i].key))
  {
    if i > 0 {
      RunBelow(ops, i - 1);
      var t, op := R.Run(ops[..i - 1]), ops[i - 1];
      var k := KeyToBinary(op.key);
      assert ops[..i][..i - 1] == ops[..i - 1];
      NextBelow(t, op.key, op.value, ops[i].key);
    }
  }

  lemma StreamStep(ops: seq<R.Op>, i: nat)
    requires Increasing(ops) && i < |ops|
    ensures Right(R.Run(ops[..i]), KeyToBinary(ops[i].key)) && T.Root(R.Run(ops[..i]))
    ensures R.Run(ops[..i + 1]) == T.Put(R.Run(ops[..i]), KeyToBinary(ops[i].key), T.Val(ops[i].value))
  {
    RunBelow(ops, i);
    BelowRight(R.Run(ops[..i]), KeyToBinary(ops[i].key));
    assert ops[..i + 1][..i] == ops[..i];
  }

  lemma {:induction false} RunKeys(ops: seq<R.Op>, k: seq<byte>)
    requires k in R.RunMap(ops)
    ensures exists i :: 0 <= i < |ops| && ops[i].key == k
  {
    var n := |ops| - 1;
    if ops[n].key != k {
      RunKeys(ops[..n], k);
      var i :| 0 <= i < n && ops[..n][i].key == k;
      assert ops[i].key == k;
    }
  }

  /** The right side of a trie of keys of one length is no longer than they are. */
  lemma RightLenBound(ops: seq<R.Op>, length: nat)
    requires forall i :: 0 <= i < |ops| ==> |ops[i].key| == length
    ensures RightLen(R.Run(ops)) <= 8 * length
  {
    R.RunHolds(ops);
    var t := R.Run(ops);
    if !t.Nil? {
      var q := RightKey(t);
      var m := R.RunMap(ops);
      assert R.At(m, q).Some?;
      var k := BinaryToKey(q).value;
      R.BinaryToKeyInverse(q, k);
      RunKeys(ops, k);
    }
  }

  /** Streaming strictly increasing keys of one length gives the root of the ordinary trie. */
  method StreamRoot(ops: seq<R.Op>) returns (h: Blob)
    requires Increasing(ops)
    ensures h == T.RootHash(R.Run(ops))
  {
    var st := Stream(ops);
    RunRoot(ops);
    h := st.Hash();
  }

  method Stream(ops: seq<R.Op>) returns (st: Node)
    requires Increasing(ops)
    ensures st.Valid() && fresh(st.Repr) && st.tree == R.Run(ops)
    ensures |ops| > 0 ==> st.Live() <= 16 * |ops[0].key| + 1
  {
    st := new Node();
    ghost var t := T.Nil;
    var i := 0;
    assert ops[..0] == [];
    while i < |ops|
      invariant 0 <= i <= |ops| && t == R.Run(ops[..i])
      invariant st.Valid() && st.open && st.keyOffset == 0 && fresh(st.Repr) && st.tree == t
      invariant i > 0 ==> st.Live() <= 16 * |ops[0].key| + 1
    {
      StreamOne(st, ops, i);
      i := i + 1;
      t := st.tree;
    }
    assert ops[..i] == ops;
  }

  lemma RunRoot(ops: seq<R.Op>)
    ensures T.Root(R.Run(ops))
  {
    R.RunHolds(ops);
  }

  /** The builder stays small, however many keys there are. */
  lemma SmallRun(st: Node, ops: seq<R.Op>, i: nat)
    requires Increasing(ops) && 0 < i <= |ops| && st.Valid() && st.open && st.tree == R.Run(ops[..i])
    ensures st.Live() <= 16 * |ops[0].key| + 1
  {
    RunRoot(ops[..i]);
    LiveBound(st);
    RightLenBound(ops[..i], |ops[0].key|);
  }

  method StreamOne(st: Node, ops: seq<R.Op>, i: nat)
    requires Increasing(ops) && i < |ops| && st.Valid() && st.open && st.keyOffset == 0 && st.tree == R.Run(ops[..i])
    modifies st.Repr
    ensures st.Valid() && st.open && st.keyOffset == 0 && fresh(st.Repr - old(st.Repr))
        && st.tree == R.Run(ops[..i + 1])
    ensures st.Live() <= 16 * |ops[0].key| + 1
  {
    StreamStep(ops, i);
    st.TryUpdate(ops[i].key, ops[i].value);
    SmallRun(st, ops, i + 1);
  }
}
