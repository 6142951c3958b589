/**
  Merkle proofs: Prove collects the encoded nodes on the path of a key, VerifyProof walks from a
  root hash through any set of nodes keyed by their digests.
 */
module Proofs {
  import opened Encoding
  import opened Rlp
  import opened Nodes
  import opened Hasher
  import opened LazyTrie
  import T = Trees

  // ----- walking inside one decoded node

  datatype Step = NotFound | AtValue(v: Blob) | AtHash(rest: seq<byte>, h: Blob) | Crash

  /** Follows a key through loaded nodes until a hash, a value or nothing. */
  function Walk(n: Node, key: seq<byte>): Step {
    match n
    case Nil => NotFound
    case Value(v) => AtValue(v)
    case Hash(h) => AtHash(key, h)
    case Short(k, c, _) => if k <= key then Walk(c, key[|k|..]) else NotFound
    case Full(_, _, _, _) => if |key| == 0 || key[0] > 2 then Crash else Walk(Kid(n, key[0]), key[1..])
  }

  method GetStep(n: Node, key: seq<byte>) returns (r: Step)
    ensures r == Walk(n, key)
  {
    var tn, rest := n, key;
    while true
      invariant Walk(tn, rest) == Walk(n, key)
      decreases tn
    {
      match tn {
        case Short(k, c, _) =>
          if |rest| < |k| || k != rest[..|k|] {
            return NotFound;
          }
          tn, rest := c, rest[|k|..];
        case Full(_, _, _, _) =>
          if |rest| == 0 || rest[0] > 2 {
            return Crash;
          }
          tn, rest := Kid(tn, rest[0]), rest[1..];
        case Hash(h) => return AtHash(rest, h);
        case Nil => return NotFound;
        case Value(v) => return AtValue(v);
      }
    }
  }

  // ----- digests only point at what they were computed from

  /** Every unloaded reference in n is a digest of depth at most d. */
  ghost predicate Within(n: Node, d: nat) {
    match n
    case Nil => true
    case Value(_) => true
    case Hash(h) => Height(h) <= d
    case Short(_, c, _) => Within(c, d)
    case Full(a, b, c, _) => Within(a, d) && Within(b, d) && Within(c, d)
  }

  lemma {:induction false} WithinMono(n: Node, d: nat, e: nat)
    requires Within(n, d) && d <= e
    ensures Within(n, e)
  {
    match n
    case Nil =>
    case Value(_) =>
    case Hash(_) =>
    case Short(_, c, _) => WithinMono(c, d, e);
    case Full(a, b, c, _) =>
      WithinMono(a, d, e);
      WithinMono(b, d, e);
      WithinMono(c, d, e);
  }

  lemma {:induction false} DecodeWithin(item: Item, hash: Option<Blob>)
    requires Decode(item, hash).Done?
    ensures Within(Decode(item, hash).value, Depth(item))
    decreases item, 0
  {
    var items := item.items;
    var d := Depth(item);
    if |items| == 2 {
      DepthAt(items, 1);
      if DecodeRef(items[1]).Done? {
        DecodeRefWithin(items[1]);
        WithinMono(DecodeRef(items[1]).value, Depth(items[1]), d);
      }
    } else {
      DepthAt(items, 0);
      DepthAt(items, 1);
      DecodeRefWithin(items[0]);
      DecodeRefWithin(items[1]);
      WithinMono(DecodeRef(items[0]).value, Depth(items[0]), d);
      WithinMono(DecodeRef(items[1]).value, Depth(items[1]), d);
    }
  }

  lemma {:induction false} DecodeRefWithin(item: Item)
    requires DecodeRef(item).Done?
    ensures Within(DecodeRef(item).value, Depth(item))
    decreases item, 1
  {
    if item.List? {
      DecodeWithin(item, None);
    }
  }

  lemma {:induction false} WalkWithin(n: Node, key: seq<byte>, d: nat)
    requires Within(n, d) && Walk(n, key).AtHash?
    ensures Height(Walk(n, key).h) <= d
  {
    match n
    case Hash(_) =>
    case Short(k, c, _) => WalkWithin(c, key[|k|..], d);
    case Full(_, _, _, _) => WalkWithin(Kid(n, key[0]), key[1..], d);
  }

  // ----- verification

  datatype Verdict = Answer(value: Option<Blob>) | MissingNode(h: Blob) | BadNode | Panicked

  /** The recursion behind the verification loop; it ends because digests are acyclic. */
  function Verify(want: Blob, key: seq<byte>, db: Store): Verdict
    requires StoreOk(db)
    decreases Height(want)
  {
    if want !in db then MissingNode(want)
    else
      var n := Decode(db[want], Some(want));
      if n.Bad? then BadNode
      else if !n.Done? then Panicked
      else
        match Walk(n.value, key)
        case NotFound => Answer(None)
        case AtValue(v) => Answer(Some(v))
        case Crash => Panicked
        case AtHash(rest, h) =>
          DecodeWithin(db[want], Some(want));
          WalkWithin(n.value, key, Depth(db[want]));
          Verify(h, rest, db)
  }

  method VerifyProof(rootHash: Blob, keyBytes: seq<byte>, db: Store) returns (r: Verdict)
    requires StoreOk(db)
    ensures r == Verify(rootHash, KeyToBinary(keyBytes), db)
  {
    var key := KeybytesToBinary(keyBytes);
    var want := rootHash;
    while true
      invariant Verify(want, key, db) == Verify(rootHash, KeyToBinary(keyBytes), db)
      decreases Height(want)
    {
      if want !in db {
        return MissingNode(want);
      }
      var n := Decode(db[want], Some(want));
      if n.Bad? {
        return BadNode;
      } else if !n.Done? {
        return Panicked;
      }
      var s := GetStep(n.value, key);
      match s {
        case NotFound => return Answer(None);
        case AtValue(v) => return Answer(Some(v));
        case Crash => return Panicked;
        case AtHash(rest, h) =>
          DecodeWithin(db[want], Some(want));
          WalkWithin(n.value, key, Depth(db[want]));
          key, want := rest, h;
      }
    }
  }

  // ----- soundness

  /** The tree behind the hash node where a walk stops. */
  ghost function Target(n: Node, t: T.Tree, key: seq<byte>): T.Tree
    requires Represents(n, t, false) || Represents(n, t, true)
    requires KeyFor(t, key) && Walk(n, key).AtHash?
    decreases n
  {
    match n
    case Hash(_) => t
    case Short(k, c, _) => KeyForSub(t, key); Target(c, t.sub, key[|k|..])
    case Full(_, _, _, _) => KeyForKid(t, key); Target(Kid(n, key[0]), T.Kid(t, key[0]), key[1..])
  }

  /** A walk stays on the path of the key: what it finds is what the tree holds. */
  ghost predicate WalkOk(n: Node, t: T.Tree, key: seq<byte>)
    requires Represents(n, t, false) || Represents(n, t, true)
    requires KeyFor(t, key)
  {
    match Walk(n, key)
    case NotFound => T.Get(t, key) == None
    case AtValue(v) => T.Get(t, key) == Some(v)
    case Crash => false
    case AtHash(rest, h) =>
      var s := Target(n, t, key);
      T.Canon(s) && h == Keccak(T.Enc(s)) && KeyFor(s, rest) && T.Get(s, rest) == T.Get(t, key)
  }

  lemma {:induction false} WalkRepresents(n: Node, t: T.Tree, top: bool, key: seq<byte>)
    requires Represents(n, t, top) && KeyFor(t, key)
    ensures WalkOk(n, t, key)
    decreases n
  {
    match n
    case Nil =>
    case Value(_) =>
    case Hash(_) =>
    case Short(k, c, _) =>
      if k <= key {
        KeyForSub(t, key);
        WalkRepresents(c, t.sub, false, key[|k|..]);
      }
    case Full(_, _, _, _) =>
      KeyForKid(t, key);
      WalkRepresents(Kid(n, key[0]), T.Kid(t, key[0]), false, key[1..]);
  }

  /**
    Whatever set of nodes a prover supplies, verification against the root of t either reports a
    missing node or gives the value t holds; it never fails to decode and never runs off the key.
   */
  lemma {:induction false} VerifySound(t: T.Tree, key: seq<byte>, db: Store)
    requires T.Canon(t) && TermKey(key) && StoreOk(db)
    ensures Verify(Keccak(T.Enc(t)), key, db).MissingNode? || Verify(Keccak(T.Enc(t)), key, db) == Answer(T.Get(t, key))
    decreases Height(Keccak(T.Enc(t)))
  {
    var want := Keccak(T.Enc(t));
    if want in db {
      DecodeRepresents(t, Some(want), true);
      var n := Decode(db[want], Some(want)).value;
      WalkRepresents(n, t, true, key);
      if Walk(n, key).AtHash? {
        DecodeWithin(db[want], Some(want));
        WalkWithin(n, key, Depth(db[want]));
        VerifySound(Target(n, t, key), Walk(n, key).rest, db);
      }
    }
  }

  lemma VerifyProofSound(t: T.Tree, key: seq<byte>, db: Store)
    requires T.Root(t) && TermKey(key) && StoreOk(db)
    ensures var r := Verify(T.RootHash(t), key, db);
            r.MissingNode? || (if t.Nil? then r == BadNode else r == Answer(T.Get(t, key)))
  {
    if !t.Nil? {
      VerifySound(t, key, db);
    }
  }

  // ----- completeness

  /** The nodes a key passes through, root first. */
  ghost function PathTrees(t: T.Tree, key: seq<byte>): seq<T.Tree> {
    match t
    case Nil => []
    case Val(_) => []
    case Ext(k, s) => [t] + if k <= key then PathTrees(s, key[|k|..]) else []
    case Branch(_, _, _) => [t] + if |key| == 0 || key[0] > 2 then [] else PathTrees(T.Kid(t, key[0]), key[1..])
  }

  /** Every node of the path that is referred to by hash is in the store; top marks a root. */
  ghost predicate PathStored(db: Store, path: seq<T.Tree>, top: bool) {
    forall i :: 0 <= i < |path| && ((top && i == 0) || Size(T.Enc(path[i])) >= HASH_LEN) ==>
        Keccak(T.Enc(path[i])) in db
  }

  lemma PathStoredTail(db: Store, x: T.Tree, path: seq<T.Tree>, top: bool)
    requires PathStored(db, [x] + path, top)
    ensures PathStored(db, path, false)
  {
    forall i | 0 <= i < |path| && Size(T.Enc(path[i])) >= HASH_LEN
      ensures Keccak(T.Enc(path[i])) in db
    {
      assert ([x] + path)[i + 1] == path[i];
    }
  }

  lemma {:induction false} TargetStored(db: Store, n: Node, t: T.Tree, top: bool, key: seq<byte>)
    requires Represents(n, t, top) && KeyFor(t, key) && Walk(n, key).AtHash? && WalkOk(n, t, key)
    requires PathStored(db, PathTrees(t, key), top)
    ensures PathStored(db, PathTrees(Target(n, t, key), Walk(n, key).rest), true)
    decreases n
  {
    match n
    case Hash(_) =>
      assert PathTrees(t, key)[0] == t;
      forall i | 0 <= i < |PathTrees(t, key)| && (i == 0 || Size(T.Enc(PathTrees(t, key)[i])) >= HASH_LEN)
        ensures Keccak(T.Enc(PathTrees(t, key)[i])) in db
      {
      }
    case Short(k, c, _) =>
      KeyForSub(t, key);
      WalkRepresents(c, t.sub, false, key[|k|..]);
      PathStoredTail(db, t, PathTrees(t.sub, key[|k|..]), top);
      TargetStored(db, c, t.sub, false, key[|k|..]);
    case Full(_, _, _, _) =>
      KeyForKid(t, key);
      WalkRepresents(Kid(n, key[0]), T.Kid(t, key[0]), false, key[1..]);
      PathStoredTail(db, t, PathTrees(T.Kid(t, key[0]), key[1..]), top);
      TargetStored(db, Kid(n, key[0]), T.Kid(t, key[0]), false, key[1..]);
  }

  /** With the whole path at hand, verification answers with the value, or with its absence. */
  lemma {:induction false} VerifyComplete(t: T.Tree, key: seq<byte>, db: Store)
    requires T.Canon(t) && TermKey(key) && StoreOk(db) && PathStored(db, PathTrees(t, key), true)
    ensures Verify(Keccak(T.Enc(t)), key, db) == Answer(T.Get(t, key))
    decreases Height(Keccak(T.Enc(t)))
  {
    var want := Keccak(T.Enc(t));
    assert PathTrees(t, key)[0] == t;
    DecodeRepresents(t, Some(want), true);
    var n := Decode(db[want], Some(want)).value;
    WalkRepresents(n, t, true, key);
    if Walk(n, key).AtHash? {
      DecodeWithin(db[want], Some(want));
      WalkWithin(n, key, Depth(db[want]));
      TargetStored(db, n, t, true, key);
      VerifyComplete(Target(n, t, key), Walk(n, key).rest, db);
    }
  }

  // ----- proving

  /** The collapsed form of a node, whether or not its own hash is cached. */
  function Collapse(n: Node): Item
    requires n.Short? || n.Full?
  {
    match n
    case Short(k, c, _) => List([T.KeyItem(k), HashNode(c, false).ref])
    case Full(a, b, c, _) => List([HashNode(a, false).ref, HashNode(b, false).ref, HashNode(c, false).ref])
  }

  lemma CollapseIsEnc(n: Node, t: T.Tree, top: bool)
    requires Represents(n, t, top) && T.Canon(t) && (n.Short? || n.Full?)
    ensures Collapse(n) == T.Enc(t)
  {
    if n.Short? {
      HashRefines(map[], n.child, t.sub, false);
    } else {
      HashRefines(map[], n.c0, t.c0, false);
      HashRefines(map[], n.c1, t.c1, false);
      HashRefines(map[], n.c2, t.c2, false);
    }
  }

  /** Nodes that stand for the trees of a path, all loaded. */
  ghost predicate Loaded(nodes: seq<Node>, path: seq<T.Tree>) {
    && |nodes| == |path|
    && forall i :: 0 <= i < |nodes| ==>
         (nodes[i].Short? || nodes[i].Full?) && T.Canon(path[i]) && Represents(nodes[i], path[i], i == 0)
  }

  /** Where the collecting loop stands: path behind it, node tn for the tree cur ahead. */
  ghost predicate OnPath(db: Store, root: Node, t: T.Tree, key: seq<byte>,
                         nodes: seq<Node>, path: seq<T.Tree>, tn: Node, cur: T.Tree, rest: seq<byte>) {
    && Represents(tn, cur, |nodes| == 0) && KeyFor(cur, rest)
    && (Backed(db, root, t) ==> Backed(db, tn, cur))
    && Loaded(nodes, path) && path + PathTrees(cur, rest) == PathTrees(t, key)
  }

  lemma LoadedSnoc(nodes: seq<Node>, path: seq<T.Tree>, n: Node, t: T.Tree)
    requires Loaded(nodes, path) && (n.Short? || n.Full?) && T.Canon(t) && Represents(n, t, |nodes| == 0)
    ensures Loaded(nodes + [n], path + [t])
  {
  }

  lemma StepStop(db: Store, root: Node, t: T.Tree, key: seq<byte>, nodes: seq<Node>, path: seq<T.Tree>, tn: Node,
      cur: T.Tree, rest: seq<byte>)
    requires OnPath(db, root, t, key, nodes, path, tn, cur, rest) && |rest| > 0 && tn.Short? && !(tn.key <= rest)
    ensures OnPath(db, root, t, key, nodes + [tn], path + [cur], Nil, T.Nil, rest)
  {
    LoadedSnoc(nodes, path, tn, cur);
    assert PathTrees(cur, rest) == [cur];
    assert path + [cur] + PathTrees(T.Nil, rest) == path + [cur];
  }

  lemma StepShort(db: Store, root: Node, t: T.Tree, key: seq<byte>, nodes: seq<Node>, path: seq<T.Tree>, tn: Node,
      cur: T.Tree, rest: seq<byte>)
    requires OnPath(db, root, t, key, nodes, path, tn, cur, rest) && |rest| > 0 && tn.Short? && tn.key <= rest
    ensures OnPath(db, root, t, key, nodes + [tn], path + [cur], tn.child, cur.sub, rest[|tn.key|..])
    ensures |tn.key| > 0
  {
    KeyForSub(cur, rest);
    LoadedSnoc(nodes, path, tn, cur);
    var tail := PathTrees(cur.sub, rest[|tn.key|..]);
    assert PathTrees(cur, rest) == [cur] + tail;
    ShiftPath(path, cur, tail);
  }

  lemma ShiftPath(path: seq<T.Tree>, x: T.Tree, tail: seq<T.Tree>)
    ensures path + ([x] + tail) == path + [x] + tail
  {
  }

  lemma StepFull(db: Store, root: Node, t: T.Tree, key: seq<byte>, nodes: seq<Node>, path: seq<T.Tree>, tn: Node,
      cur: T.Tree, rest: seq<byte>)
    requires OnPath(db, root, t, key, nodes, path, tn, cur, rest) && |rest| > 0 && tn.Full?
    ensures rest[0] <= 2
    ensures OnPath(db, root, t, key, nodes + [tn], path + [cur], Kid(tn, rest[0]), T.Kid(cur, rest[0]), rest[1..])
  {
    KeyForKid(cur, rest);
    LoadedSnoc(nodes, path, tn, cur);
    var tail := PathTrees(T.Kid(cur, rest[0]), rest[1..]);
    assert PathTrees(cur, rest) == [cur] + tail;
    ShiftPath(path, cur, tail);
  }

  lemma StepHash(db: Store, root: Node, t: T.Tree, key: seq<byte>, nodes: seq<Node>, path: seq<T.Tree>, tn: Node,
      cur: T.Tree, rest: seq<byte>)
    requires OnPath(db, root, t, key, nodes, path, tn, cur, rest) && tn.Hash? && StoreOk(db)
    ensures Resolve(db, tn.h).Done? || (Resolve(db, tn.h).Missing? && !Backed(db, root, t))
    ensures Resolve(db, tn.h).Done? ==> OnPath(db, root, t, key, nodes, path, Resolve(db, tn.h).value, cur, rest)
  {
    ResolveRepresents(db, tn.h, cur, |nodes| == 0);
  }

  /** First loop of Prove: the loaded nodes on the path of the key. */
  method CollectPath(db: Store, root: Node, key: seq<byte>, ghost t: T.Tree) returns (r: Outcome<seq<Node>>)
    requires StoreOk(db) && Represents(root, t, true) && T.Root(t) && TermKey(key)
    ensures r.Done? || (r.Missing? && !Backed(db, root, t))
    ensures r.Done? ==> Loaded(r.value, PathTrees(t, key))
  {
    var nodes: seq<Node> := [];
    var tn, rest := root, key;
    ghost var cur, path: seq<T.Tree> := t, [];
    while |rest| > 0 && tn != Nil
      invariant OnPath(db, root, t, key, nodes, path, tn, cur, rest)
      decreases |rest|, if tn.Hash? then 2 else if tn.Nil? then 0 else 1
    {
      match tn {
        case Short(k, c, _) =>
          if |rest| < |k| || k != rest[..|k|] {
            StepStop(db, root, t, key, nodes, path, tn, cur, rest);
            nodes := nodes + [tn];
            path, cur := path + [cur], T.Nil;
            tn := Nil;
          } else {
            StepShort(db, root, t, key, nodes, path, tn, cur, rest);
            nodes := nodes + [tn];
            path, cur := path + [cur], cur.sub;
            tn, rest := c, rest[|k|..];
          }
        case Full(_, _, _, _) =>
          StepFull(db, root, t, key, nodes, path, tn, cur, rest);
          nodes := nodes + [tn];
          path, cur := path + [cur], T.Kid(cur, rest[0]);
          tn, rest := Kid(tn, rest[0]), rest[1..];
        case Hash(h) =>
          StepHash(db, root, t, key, nodes, path, tn, cur, rest);
          var c := Resolve(db, h);
          if c.Missing? {
            return Missing(h);
          }
          tn := c.value;
      }
    }
    assert path == path + PathTrees(cur, rest);
    r := Done(nodes);
  }

  /** Whether verification asks for node j of a path by hash. */
  ghost predicate Needed(path: seq<T.Tree>, j: nat) {
    j < |path| && (j == 0 || Size(T.Enc(path[j])) >= HASH_LEN)
  }

  ghost predicate Written(r: Store, path: seq<T.Tree>, from: nat, to: nat) {
    forall j :: from <= j < to && Needed(path, j) ==> Keccak(T.Enc(path[j])) in r
  }

  lemma WrittenIsStored(r: Store, path: seq<T.Tree>)
    requires Written(r, path, 0, |path|)
    ensures PathStored(r, path, true)
  {
    forall j | 0 <= j < |path| && (j == 0 || Size(T.Enc(path[j])) >= HASH_LEN)
      ensures Keccak(T.Enc(path[j])) in r
    {
      assert Needed(path, j);
    }
  }

  lemma WrittenStep(r: Store, r': Store, path: seq<T.Tree>, from: nat, i: nat)
    requires Written(r, path, from, i) && forall h :: h in r ==> h in r'
    requires from <= i && Needed(path, i) ==> Keccak(T.Enc(path[i])) in r'
    ensures Written(r', path, from, i + 1)
  {
  }

  /** Second loop of Prove: writes the nodes that verification asks for by hash, and the root. */
  method WritePath(nodes: seq<Node>, fromLevel: nat, proofDb: Store, ghost path: seq<T.Tree>) returns (r: Store)
    requires Loaded(nodes, path) && StoreOk(proofDb)
    ensures StoreOk(r) && (forall h :: h in proofDb ==> h in r)
    ensures Written(r, path, fromLevel, |path|)
  {
    r := proofDb;
    var i := 0;
    while i < |nodes|
      invariant 0 <= i <= |nodes| && StoreOk(r) && forall h :: h in proofDb ==> h in r
      invariant Written(r, path, fromLevel, i)
    {
      ghost var before := r;
      if i >= fromLevel {
        r := WriteNode(nodes[i], i == 0, r, path[i]);
      }
      WrittenStep(before, r, path, fromLevel, i);
      i := i + 1;
    }
  }

  method WriteNode(n: Node, first: bool, db: Store, ghost t: T.Tree) returns (r: Store)
    requires (n.Short? || n.Full?) && T.Canon(t) && Represents(n, t, first) && StoreOk(db)
    ensures StoreOk(r) && (forall h :: h in db ==> h in r)
    ensures first || Size(T.Enc(t)) >= HASH_LEN ==> Keccak(T.Enc(t)) in r
  {
    CollapseIsEnc(n, t, first);
    var item := Collapse(n);
    r := if Size(item) >= HASH_LEN || first then db[Keccak(item) := item] else db;
  }

  /** Adds a proof for the key to proofDb; with fromLevel 0 it is enough to verify the key. */
  method Prove(db: Store, root: Node, keyBytes: seq<byte>, fromLevel: nat, proofDb: Store, ghost t: T.Tree)
    returns (r: Outcome<Store>)
    requires StoreOk(db) && StoreOk(proofDb) && Represents(root, t, true) && T.Root(t)
    ensures r.Done? || (r.Missing? && !Backed(db, root, t))
    ensures r.Done? ==> StoreOk(r.value) && forall h :: h in proofDb ==> h in r.value
    ensures r.Done? && fromLevel == 0 && T.Canon(t) ==>
              Verify(T.RootHash(t), KeyToBinary(keyBytes), r.value) == Answer(T.Get(t, KeyToBinary(keyBytes)))
  {
    var key := KeybytesToBinary(keyBytes);
    var c := CollectPath(db, root, key, t);
    if c.Missing? {
      return Missing(c.hash);
    }
    ghost var path := PathTrees(t, key);
    var out := WritePath(c.value, fromLevel, proofDb, path);
    if fromLevel == 0 && T.Canon(t) {
      WrittenIsStored(out, path);
      VerifyComplete(t, key, out);
    }
    r := Done(out);
  }
}
