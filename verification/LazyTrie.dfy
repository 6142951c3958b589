/**
  Lookup, insertion and deletion on partly loaded tries: recursive and copy-on-write, loading
  hash nodes on the way, keeping untouched nodes with their cached hashes.
 */
module LazyTrie {
  import opened Encoding
  import opened Rlp
  import opened Nodes
  import T = Trees

  /** dirty says whether anything changed; if not, the caller keeps its own node. */
  datatype Update = Update(dirty: bool, node: Node)

  datatype Found = Found(value: Option<Blob>, node: Node, didResolve: bool)

  // ----- the operations

  function Lookup(db: Store, n: Node, key: seq<byte>): Outcome<Found>
    decreases |key|, if n.Hash? then 1 else 0
  {
    match n
    case Nil => Done(Found(None, Nil, false))
    case Value(v) => Done(Found(Some(v), n, false))
    case Short(k, c, _) =>
      if |k| == 0 then Panic
      else if !(k <= key) then Done(Found(None, n, false))
      else
        var r := Lookup(db, c, key[|k|..]);
        if !r.Done? then r
        else if r.value.didResolve then Done(Found(r.value.value, n.(child := r.value.node), true))
        else Done(Found(r.value.value, n, false))
    case Full(_, _, _, f) =>
      if |key| == 0 || key[0] > 2 then Panic
      else
        var r := Lookup(db, Kid(n, key[0]), key[1..]);
        if !r.Done? then r
        else if r.value.didResolve then Done(Found(r.value.value, SetKid(n, key[0], r.value.node, f), true))
        else Done(Found(r.value.value, n, false))
    case Hash(h) =>
      match Resolve(db, h)
      case Done(c) =>
        var r := Lookup(db, c, key);
        if r.Done? then Done(r.value.(didResolve := true)) else r
      case Missing(m) => Missing(m)
      case Bad => Bad
      case Panic => Panic
  }

  /** Insertion into nothing. */
  function Plant(key: seq<byte>, x: Node): Node {
    if |key| == 0 then x else Short(key, x, NEW_FLAG)
  }

  function NodeFork(a: byte, s: Node, b: byte, x: Node): Node
    requires a <= 2 && b <= 2
  {
    SetKid(SetKid(Full(Nil, Nil, Nil, NEW_FLAG), a, s, NEW_FLAG), b, x, NEW_FLAG)
  }

  function Insert(db: Store, n: Node, key: seq<byte>, x: Node): Outcome<Update>
    decreases |key|, if n.Hash? then 1 else 0
  {
    if |key| == 0 then Done(Update(!(n.Value? && n == x), x)) else
    match n
    case Nil => Done(Update(true, Plant(key, x)))
    case Value(_) => Panic
    case Short(k, c, _) =>
      var m := PrefixLen(key, k);
      if |k| == 0 then Panic
      else if m == |k| then
        var r := Insert(db, c, key[m..], x);
        if !r.Done? then r
        else if !r.value.dirty then Done(Update(false, n))
        else Done(Update(true, Short(k, r.value.node, NEW_FLAG)))
      else if m == |key| || k[m] > 2 || key[m] > 2 then Panic
      else
        var f := NodeFork(k[m], Plant(k[m + 1..], c), key[m], Plant(key[m + 1..], x));
        Done(Update(true, Plant(key[..m], f)))
    case Full(_, _, _, _) =>
      if key[0] > 2 then Panic
      else
        var r := Insert(db, Kid(n, key[0]), key[1..], x);
        if !r.Done? then r
        else if !r.value.dirty then Done(Update(false, n))
        else Done(Update(true, SetKid(n, key[0], r.value.node, NEW_FLAG)))
    case Hash(h) =>
      match Resolve(db, h)
      case Done(rn) =>
        var r := Insert(db, rn, key, x);
        if r.Done? && !r.value.dirty then Done(Update(false, rn)) else r
      case Missing(m) => Missing(m)
      case Bad => Bad
      case Panic => Panic
  }

  /** The index of the only child left, if exactly one is left: what the scan in delete computes. */
  function OnlyKid(n: Node): Option<byte>
    requires n.Full?
  {
    if !n.c0.Nil? && n.c1.Nil? && n.c2.Nil? then Some(0)
    else if n.c0.Nil? && !n.c1.Nil? && n.c2.Nil? then Some(1)
    else if n.c0.Nil? && n.c1.Nil? && !n.c2.Nil? then Some(2)
    else None
  }

  /** The scan itself: -1 while no child has been seen, -2 once there are two. */
  method ScanKids(n: Node) returns (pos: int)
    requires n.Full?
    ensures if pos >= 0 then OnlyKid(n) == Some(pos) else OnlyKid(n) == None
  {
    pos := -1;
    for i := 0 to 3
      invariant if pos >= 0 then pos < i && !Kid(n, pos).Nil? else pos == -1
      invariant forall k :: 0 <= k < i && k != pos ==> Kid(n, k).Nil?
    {
      if !Kid(n, i).Nil? {
        if pos == -1 {
          pos := i;
        } else {
          return -2;
        }
      }
    }
    assert pos != 0 ==> Kid(n, 0).Nil?;
    assert pos != 1 ==> Kid(n, 1).Nil?;
    assert pos != 2 ==> Kid(n, 2).Nil?;
  }

  /** A full node down to one child becomes a short node; the child is loaded to see what it is. */
  function Reduce(db: Store, n: Node): Outcome<Update>
    requires n.Full?
  {
    var pos := OnlyKid(n);
    if pos.None? then Done(Update(true, n))
    else
      var c := Kid(n, pos.value);
      var r := if pos.value != 2 && c.Hash? then Resolve(db, c.h) else Done(c);
      match r
      case Done(cn) =>
        if pos.value != 2 && cn.Short? then Done(Update(true, Short([pos.value] + cn.key, cn.child, NEW_FLAG)))
        else Done(Update(true, Short([pos.value], c, NEW_FLAG)))
      case Missing(m) => Missing(m)
      case Bad => Bad
      case Panic => Panic
  }

  /** What comes back changed is always loaded, so the caller can see whether to merge it. */
  function Delete(db: Store, n: Node, key: seq<byte>): (r: Outcome<Update>)
    ensures r.Done? && r.value.dirty ==> !r.value.node.Hash?
    decreases |key|, if n.Hash? then 1 else 0
  {
    match n
    case Nil => Done(Update(false, Nil))
    case Value(_) => Done(Update(true, Nil))
    case Short(k, c, _) =>
      var m := PrefixLen(key, k);
      if m < |k| then Done(Update(false, n))
      else if m == |key| then Done(Update(true, Nil))
      else if |k| == 0 then Panic
      else
        var r := Delete(db, c, key[m..]);
        if !r.Done? then r
        else if !r.value.dirty then Done(Update(false, n))
        else if r.value.node.Short? then
          Done(Update(true, Short(k + r.value.node.key, r.value.node.child, NEW_FLAG)))
        else Done(Update(true, Short(k, r.value.node, NEW_FLAG)))
    case Full(_, _, _, _) =>
      if |key| == 0 || key[0] > 2 then Panic
      else
        var r := Delete(db, Kid(n, key[0]), key[1..]);
        if !r.Done? then r
        else if !r.value.dirty then Done(Update(false, n))
        else Reduce(db, SetKid(n, key[0], r.value.node, NEW_FLAG))
    case Hash(h) =>
      match Resolve(db, h)
      case Done(rn) =>
        var r := Delete(db, rn, key);
        if r.Done? && !r.value.dirty then Done(Update(false, rn)) else r
      case Missing(m) => Missing(m)
      case Bad => Bad
      case Panic => Panic
  }

  // ----- they refine the operations on trees

  /** The keys that reach a subtree: full keys, or nothing once the terminator is consumed. */
  predicate KeyFor(t: T.Tree, k: seq<byte>) {
    if |k| == 0 then t.Nil? || t.Val? else TermKey(k) && T.Root(t)
  }

  /** A result that stands for t', or an honest report that a needed node cannot be read. */
  ghost predicate Refines(db: Store, n: Node, t: T.Tree, top: bool, r: Outcome<Update>, t': T.Tree) {
    match r
    case Done(u) =>
      && Represents(u.node, t', top)
      && (u.dirty <==> t' != t)
      && (Backed(db, n, t) ==> Backed(db, u.node, t'))
    case Missing(h) => h !in db && !Backed(db, n, t)
    case Bad => false
    case Panic => false
  }

  ghost predicate Finds(db: Store, n: Node, t: T.Tree, top: bool, key: seq<byte>, r: Outcome<Found>) {
    match r
    case Done(f) =>
      && f.value == T.Get(t, key)
      && Represents(f.node, t, top)
      && (AllHashed(n, t, top) ==> AllHashed(f.node, t, top))
      && (Backed(db, n, t) ==> Backed(db, f.node, t))
    case Missing(h) => h !in db && !Backed(db, n, t)
    case Bad => false
    case Panic => false
  }

  lemma KeyForKid(t: T.Tree, k: seq<byte>)
    requires T.Canon(t) && t.Branch? && KeyFor(t, k)
    ensures k[0] <= 2 && KeyFor(T.Kid(t, k[0]), k[1..])
  {
    T.TermKeyDrop(k, 0);
    if |k| > 1 {
      T.TermKeyDrop(k, 1);
    }
  }

  lemma KeyForSub(t: T.Tree, k: seq<byte>)
    requires T.Canon(t) && t.Ext? && KeyFor(t, k) && t.key <= k
    ensures KeyFor(t.sub, k[|t.key|..])
  {
    T.CanonPath(t.key, t.sub);
    if t.sub.Val? {
      T.TermKeyPrefix(t.key, k);
    } else {
      assert k[..|t.key|] == t.key;
      T.TermKeyDrop(k, |t.key|);
    }
  }

  lemma LookupFull(db: Store, n: Node, t: T.Tree, top: bool, key: seq<byte>)
    requires Represents(n, t, top) && n.Full? && |key| > 0 && key[0] <= 2
    requires Finds(db, Kid(n, key[0]), T.Kid(t, key[0]), false, key[1..], Lookup(db, Kid(n, key[0]), key[1..]))
    ensures Finds(db, n, t, top, key, Lookup(db, n, key))
  {
  }

  lemma LookupShort(db: Store, n: Node, t: T.Tree, top: bool, key: seq<byte>)
    requires Represents(n, t, top) && n.Short? && |n.key| > 0 && n.key <= key
    requires Finds(db, n.child, t.sub, false, key[|n.key|..], Lookup(db, n.child, key[|n.key|..]))
    ensures Finds(db, n, t, top, key, Lookup(db, n, key))
  {
  }

  lemma {:induction false} LookupRefines(db: Store, n: Node, t: T.Tree, top: bool, key: seq<byte>)
    requires StoreOk(db) && Represents(n, t, top) && KeyFor(t, key)
    ensures Finds(db, n, t, top, key, Lookup(db, n, key))
    decreases |key|, if n.Hash? then 1 else 0
  {
    match n
    case Nil =>
    case Value(_) =>
    case Short(k, c, _) =>
      if k <= key {
        KeyForSub(t, key);
        LookupRefines(db, c, t.sub, false, key[|k|..]);
        LookupShort(db, n, t, top, key);
      }
    case Full(_, _, _, _) =>
      KeyForKid(t, key);
      LookupRefines(db, Kid(n, key[0]), T.Kid(t, key[0]), false, key[1..]);
      LookupFull(db, n, t, top, key);
    case Hash(h) =>
      ResolveRepresents(db, h, t, top);
      if h in db {
        LookupRefines(db, Resolve(db, h).value, t, top, key);
      }
  }

  lemma PlantRepresents(db: Store, key: seq<byte>, n: Node, t: T.Tree)
    requires Represents(n, t, false)
    ensures Represents(Plant(key, n), T.Graft(key, t), false)
    ensures Backed(db, n, t) ==> Backed(db, Plant(key, n), T.Graft(key, t))
  {
  }

  lemma SetKidRepresents(db: Store, n: Node, t: T.Tree, i: byte, x: Node, tx: T.Tree)
    requires n.Full? && i <= 2 && Represents(n, t, false) && Represents(x, tx, false)
    ensures Represents(SetKid(n, i, x, NEW_FLAG), T.SetKid(t, i, tx), false)
    ensures Backed(db, n, t) && Backed(db, x, tx) ==> Backed(db, SetKid(n, i, x, NEW_FLAG), T.SetKid(t, i, tx))
  {
  }

  lemma NodeForkRepresents(db: Store, a: byte, s: Node, ts: T.Tree, b: byte, x: Node, tx: T.Tree)
    requires a <= 2 && b <= 2 && a != b && Represents(s, ts, false) && Represents(x, tx, false)
    ensures Represents(NodeFork(a, s, b, x), T.Fork(a, ts, b, tx), false)
    ensures Backed(db, s, ts) && Backed(db, x, tx) ==> Backed(db, NodeFork(a, s, b, x), T.Fork(a, ts, b, tx))
  {
    var n, t := Full(Nil, Nil, Nil, NEW_FLAG), T.Branch(T.Nil, T.Nil, T.Nil);
    SetKidRepresents(db, n, t, a, s, ts);
    SetKidRepresents(db, SetKid(n, a, s, NEW_FLAG), T.SetKid(t, a, ts), b, x, tx);
  }

  lemma ForkRefines(db: Store, n: Node, t: T.Tree, top: bool, key: seq<byte>, x: Node, v: Blob)
    requires Represents(n, t, top) && T.Canon(t) && TermKey(key) && n.Short?
    requires x == Value(v) && PrefixLen(key, n.key) < |n.key|
    ensures Refines(db, n, t, top, Insert(db, n, key, x), T.Put(t, key, T.Val(v)))
  {
    var k, c, m := n.key, n.child, PrefixLen(key, n.key);
    ForkSteps(db, n, t, top, key, v);
    var f := NodeFork(k[m], Plant(k[m + 1..], c), key[m], Plant(key[m + 1..], x));
    var tf := T.Fork(k[m], T.Graft(k[m + 1..], t.sub), key[m], T.Graft(key[m + 1..], T.Val(v)));
    ForkRepresents(db, k[m], k[m + 1..], c, t.sub, key[m], key[m + 1..], v);
    PlantRepresents(db, key[..m], f, tf);
    assert Represents(Plant(key[..m], f), T.Graft(key[..m], tf), top);
    assert m > 0 ==> |key[..m]| < |k|;
  }

  /** What insertion comes to where it leaves the key of a short node, in both forms. */
  lemma ForkSteps(db: Store, n: Node, t: T.Tree, top: bool, key: seq<byte>, v: Blob)
    requires Represents(n, t, top) && T.Canon(t) && TermKey(key) && n.Short? && PrefixLen(key, n.key) < |n.key|
    ensures var k, m := n.key, PrefixLen(key, n.key);
            && m < |key| && k[m] <= 2 && key[m] <= 2 && k[m] != key[m]
            && Insert(db, n, key, Value(v)) == Done(Update(true,
                 Plant(key[..m], NodeFork(k[m], Plant(k[m + 1..], n.child), key[m], Plant(key[m + 1..], Value(v))))))
            && T.Put(t, key, T.Val(v)) ==
                 T.Graft(key[..m], T.Fork(k[m], T.Graft(k[m + 1..], t.sub), key[m], T.Graft(key[m + 1..], T.Val(v))))
  {
    T.CanonPath(t.key, t.sub);
    T.Divergence(key, n.key);
  }

  /** The branch that a short node and a new value make. */
  lemma ForkRepresents(db: Store, a: byte, p: seq<byte>, c: Node, t: T.Tree, b: byte, q: seq<byte>, v: Blob)
    requires a <= 2 && b <= 2 && a != b && Represents(c, t, false)
    ensures var f, tf := NodeFork(a, Plant(p, c), b, Plant(q, Value(v))),
        T.Fork(a, T.Graft(p, t), b, T.Graft(q, T.Val(v)));
            Represents(f, tf, false) && (Backed(db, c, t) ==> Backed(db, f, tf))
  {
    PlantRepresents(db, p, c, t);
    PlantRepresents(db, q, Value(v), T.Val(v));
    NodeForkRepresents(db, a, Plant(p, c), T.Graft(p, t), b, Plant(q, Value(v)), T.Graft(q, T.Val(v)));
  }

  lemma InsertShort(db: Store, n: Node, t: T.Tree, top: bool, key: seq<byte>, v: Blob)
    requires Represents(n, t, top) && T.Canon(t) && n.Short? && |key| > 0 && PrefixLen(key, n.key) == |n.key|
    requires Refines(db, n.child, t.sub, false, Insert(db, n.child, key[|n.key|..], Value(v)),
        T.Put(t.sub, key[|n.key|..], T.Val(v)))
    ensures Refines(db, n, t, top, Insert(db, n, key, Value(v)), T.Put(t, key, T.Val(v)))
  {
  }

  lemma InsertFull(db: Store, n: Node, t: T.Tree, top: bool, key: seq<byte>, v: Blob)
    requires Represents(n, t, top) && n.Full? && |key| > 0 && key[0] <= 2
    requires Refines(db, Kid(n, key[0]), T.Kid(t, key[0]), false, Insert(db, Kid(n, key[0]), key[1..], Value(v)),
        T.Put(T.Kid(t, key[0]), key[1..], T.Val(v)))
    ensures Refines(db, n, t, top, Insert(db, n, key, Value(v)), T.Put(t, key, T.Val(v)))
  {
  }

  lemma {:induction false} InsertRefines(db: Store, n: Node, t: T.Tree, top: bool, key: seq<byte>, v: Blob)
    requires StoreOk(db) && Represents(n, t, top) && KeyFor(t, key)
    ensures Refines(db, n, t, top, Insert(db, n, key, Value(v)), T.Put(t, key, T.Val(v)))
    decreases |key|, if n.Hash? then 1 else 0
  {
    if |key| > 0 {
      match n
      case Nil =>
      case Short(k, c, _) =>
        T.CanonPath(k, t.sub);
        T.Divergence(key, k);
        if PrefixLen(key, k) < |k| {
          ForkRefines(db, n, t, top, key, Value(v), v);
        } else {
          KeyForSub(t, key);
          InsertRefines(db, c, t.sub, false, key[|k|..], v);
          InsertShort(db, n, t, top, key, v);
        }
      case Full(_, _, _, _) =>
        KeyForKid(t, key);
        InsertRefines(db, Kid(n, key[0]), T.Kid(t, key[0]), false, key[1..], v);
        InsertFull(db, n, t, top, key, v);
      case Hash(h) =>
        ResolveRepresents(db, h, t, top);
        if h in db {
          InsertRefines(db, Resolve(db, h).value, t, top, key, v);
        }
    }
  }

  lemma JoinRefines(db: Store, k: seq<byte>, n: Node, t: T.Tree)
    requires Represents(n, t, false) && |k| > 0 && n.Short?
    ensures var s := Short(k + n.key, n.child, NEW_FLAG);
            && Represents(s, T.Join(k, t), false)
            && (Backed(db, n, t) ==> Backed(db, s, T.Join(k, t)))
  {
  }

  ghost predicate Yields(db: Store, n: Node, t: T.Tree, top: bool, r: Outcome<Update>, t': T.Tree) {
    match r
    case Done(u) => Represents(u.node, t', top) && u.dirty && (Backed(db, n, t) ==> Backed(db, u.node, t'))
    case Missing(h) => h !in db && !Backed(db, n, t)
    case Bad => false
    case Panic => false
  }

  /** Collapsing a full node does not depend on whether its last child is loaded. */
  lemma ReduceYields(db: Store, n: Node, t: T.Tree, top: bool)
    requires StoreOk(db) && n.Full? && n.flags == NEW_FLAG && Represents(n, t, top)
    requires T.Root(t.c0) && T.Root(t.c1)
    ensures Yields(db, n, t, top, Reduce(db, n), T.Shrink(t))
  {
    var pos := OnlyKid(n);
    if pos.Some? && pos.value != 2 {
      var c, tc := Kid(n, pos.value), T.Kid(t, pos.value);
      var cn := c;
      if c.Hash? {
        ResolveRepresents(db, c.h, tc, false);
        if c.h in db {
          cn := Resolve(db, c.h).value;
        }
      }
      if cn.Short? {
        JoinRefines(db, [pos.value], cn, tc);
      }
    }
  }

  lemma {:induction false} DeleteRefines(db: Store, n: Node, t: T.Tree, top: bool, key: seq<byte>)
    requires StoreOk(db) && Represents(n, t, top) && KeyFor(t, key)
    ensures Refines(db, n, t, top, Delete(db, n, key), T.Cut(t, key))
    decreases |key|, if n.Hash? then 1 else 0
  {
    match n
    case Nil =>
    case Value(_) =>
    case Short(k, c, _) =>
      T.CanonPath(k, t.sub);
      T.Divergence(key, k);
      var m := PrefixLen(key, k);
      if m == |k| && m < |key| {
        KeyForSub(t, key);
        DeleteRefines(db, c, t.sub, false, key[m..]);
        DeleteShort(db, n, t, top, key);
      }
    case Full(_, _, _, _) =>
      KeyForKid(t, key);
      DeleteRefines(db, Kid(n, key[0]), T.Kid(t, key[0]), false, key[1..]);
      DeleteFull(db, n, t, top, key);
    case Hash(h) =>
      ResolveRepresents(db, h, t, top);
      if h in db {
        DeleteRefines(db, Resolve(db, h).value, t, top, key);
      }
  }

  lemma DeleteShort(db: Store, n: Node, t: T.Tree, top: bool, key: seq<byte>)
    requires Represents(n, t, top) && T.Canon(t) && n.Short? && PrefixLen(key, n.key) == |n.key| < |key|
    requires t.sub.Branch? && TermKey(key[|n.key|..])
    requires Refines(db, n.child, t.sub, false, Delete(db, n.child, key[|n.key|..]), T.Cut(t.sub, key[|n.key|..]))
    ensures Refines(db, n, t, top, Delete(db, n, key), T.Cut(t, key))
  {
    var q := key[|n.key|..];
    var r, s := Delete(db, n.child, q), T.Cut(t.sub, q);
    T.CutCanon(t.sub, q);
    assert T.Cut(t, key) == T.Join(t.key, s);
    if r.Done? && r.value.dirty {
      if r.value.node.Short? {
        JoinRefines(db, n.key, r.value.node, s);
      } else {
        assert r.value.node.Full? && T.Join(t.key, s) == T.Ext(t.key, s);
      }
    }
  }

  lemma DeleteFull(db: Store, n: Node, t: T.Tree, top: bool, key: seq<byte>)
    requires StoreOk(db) && Represents(n, t, top) && T.Canon(t) && n.Full? && KeyFor(t, key) && key[0] <= 2
    requires KeyFor(T.Kid(t, key[0]), key[1..])
    requires Refines(db, Kid(n, key[0]), T.Kid(t, key[0]), false, Delete(db, Kid(n, key[0]), key[1..]),
        T.Cut(T.Kid(t, key[0]), key[1..]))
    ensures Refines(db, n, t, top, Delete(db, n, key), T.Cut(t, key))
  {
    var i := key[0];
    var r, s := Delete(db, Kid(n, i), key[1..]), T.Cut(T.Kid(t, i), key[1..]);
    if i != 2 {
      T.TermKeyDrop(key, 0);
      T.CutCanon(T.Kid(t, i), key[1..]);
    }
    if r.Done? && r.value.dirty {
      ReduceChanged(db, n, t, top, i, r.value.node, s);
    }
  }

  lemma {:induction false} ReduceChanged(db: Store, n: Node, t: T.Tree, top: bool, i: byte, x: Node, s: T.Tree)
    requires StoreOk(db) && Represents(n, t, top) && T.Canon(t) && n.Full? && i <= 2
    requires Represents(x, s, false) && (i != 2 ==> T.Root(s)) && (i == 2 ==> s.Nil? || s.Val?) && s != T.Kid(t, i)
    requires Backed(db, Kid(n, i), T.Kid(t, i)) ==> Backed(db, x, s)
    ensures Refines(db, n, t, top, Reduce(db, SetKid(n, i, x, NEW_FLAG)), T.Shrink(T.SetKid(t, i, s)))
  {
    var m, u := SetKid(n, i, x, NEW_FLAG), T.SetKid(t, i, s);
    SetKidStands(db, n, t, top, i, x, s);
    ReduceYields(db, m, u, top);
    ShrinkChanges(t, i, s);
  }

  lemma {:induction false} SetKidStands(db: Store, n: Node, t: T.Tree, top: bool, i: byte, x: Node, s: T.Tree)
    requires StoreOk(db) && Represents(n, t, top) && T.Canon(t) && n.Full? && i <= 2
    requires Represents(x, s, false) && (i != 2 ==> T.Root(s)) && (i == 2 ==> s.Nil? || s.Val?)
    requires Backed(db, Kid(n, i), T.Kid(t, i)) ==> Backed(db, x, s)
    ensures Represents(SetKid(n, i, x, NEW_FLAG), T.SetKid(t, i, s), top)
    ensures Backed(db, n, t) ==> Backed(db, SetKid(n, i, x, NEW_FLAG), T.SetKid(t, i, s))
  {
  }

  lemma ShrinkChanges(t: T.Tree, i: byte, s: T.Tree)
    requires T.Canon(t) && t.Branch? && i <= 2 && s != T.Kid(t, i)
    ensures T.Shrink(T.SetKid(t, i, s)) != t
  {
  }
}
