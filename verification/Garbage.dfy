/**
  No garbage is left: when the last reference to a trie is given up, none of its nodes stays in
  memory, unless others refer to them.
 */
module Garbage {
  import opened Encoding
  import opened Rlp
  import opened Seal
  import opened NodeCache
  import opened Teardown
  import opened Database
  import T = Trees

  // ----- counts after a removal

  /** Every reference to x is counted once, and nothing else is. */
  ghost predicate Tight(f: Snapshot, x: Blob) {
    x in f.c.dirties && x != ZERO && x !in f.c.disk && f.c.dirties[x].parents == Owed(f, x)
  }

  /** After a removal a node with tight counts is left only if something still refers to it, or nothing did before. */
  lemma LeftIfOwed(f: Snapshot, g: Snapshot, x: Blob)
    requires Tight(f, x) && x in g.c.dirties && g.c.disk == f.c.disk && EvenAt(f, g, x) && ZerosGone(f, g)
    ensures Tight(g, x) && (Owed(f, x) > 0 ==> Owed(g, x) > 0)
  {
  }

  /** Nobody but nodes of s refers to the nodes of s, except for the one reference of the meta root to root. */
  ghost predicate OnlyWithin(f: Snapshot, root: Blob, s: set<Blob>) {
    && (forall c :: c in s ==> Tight(f, c) && RootRefs(f.c.dirties, c) == if c == root then 1 else 0)
    && forall p, c :: p in f.order && p in f.c.dirties && c in s && OccAt(f.c.dirties, p, c) > 0 ==> p in s
  }

  /** Every node of s is referred to. */
  ghost predicate AllOwed(f: Snapshot, s: set<Blob>) {
    forall c :: c in s ==> Owed(f, c) > 0
  }

  /** What a removal of the root may have left. */
  ghost predicate Removed(f: Snapshot, g: Snapshot, root: Blob) {
    && Framed(f) && Framed(g) && f.pend == multiset{} && g.pend == multiset{} && f.dying == {} && g.dying == {}
    && g.c.disk == f.c.disk && Even(f, g) && ZerosGone(f, g)
    && RootRefs(g.c.dirties, root) == 0
    && forall c :: RootRefs(g.c.dirties, c) <= RootRefs(f.c.dirties, c)
  }

  function Higher(s: set<Blob>, c: Blob): set<Blob> {
    set x | x in s && Height(x) > Height(c)
  }

  /** A node of s that is left is below another one. */
  lemma LeftBelow(f: Snapshot, g: Snapshot, root: Blob, s: set<Blob>, c: Blob) returns (p: Blob)
    requires Removed(f, g, root) && OnlyWithin(f, root, s) && AllOwed(f, s) && c in s && c in g.c.dirties
    ensures p in s && p in g.c.dirties && Height(p) > Height(c)
  {
    LeftIfOwed(f, g, c);
    p := SomeReferrer(g.order, g.c.dirties, c);
    FramedKeys(f);
    FramedKeys(g);
    assert EvenAt(f, g, p);
    ReferrerHigher(f, p, c);
  }

  lemma ReferrerHigher(f: Snapshot, p: Blob, c: Blob)
    requires Framed(f) && p in f.order && p in f.c.dirties && OccAt(f.c.dirties, p, c) > 0
    ensures Height(p) > Height(c)
  {
    assert Opens(0);
    KidsOcc(f.c.dirties[p], c);
    assert c in Kids(f.c.dirties[p]);
  }

  /** So none is left. */
  lemma {:induction false} NoneLeft(f: Snapshot, g: Snapshot, root: Blob, s: set<Blob>, c: Blob)
    requires Removed(f, g, root) && OnlyWithin(f, root, s) && AllOwed(f, s) && c in s
    ensures c !in g.c.dirties
    decreases |Higher(s, c)|
  {
    if c in g.c.dirties {
      var p := LeftBelow(f, g, root, s, c);
      HigherLess(s, c, p);
      NoneLeft(f, g, root, s, p);
    }
  }

  lemma HigherLess(s: set<Blob>, c: Blob, p: Blob)
    requires p in s && Height(p) > Height(c)
    ensures |Higher(s, p)| < |Higher(s, c)|
  {
    assert p in Higher(s, c) && p !in Higher(s, p);
    assert Higher(s, p) <= Higher(s, c) - {p};
    SubsetSmaller(Higher(s, p), Higher(s, c) - {p});
  }

  lemma {:induction false} SubsetSmaller(a: set<Blob>, b: set<Blob>)
    requires a <= b
    ensures |a| <= |b|
  {
    if a != {} {
      var x :| x in a;
      SubsetSmaller(a - {x}, b - {x});
    }
  }

  // ----- the nodes of a trie

  /** The digests of the nodes in a subtree that are stored on their own. */
  ghost function Digests(t: T.Tree): set<Blob>
    decreases t, 1
  {
    (if T.Canon(t) && Size(T.Enc(t)) >= HASH_LEN then {Keccak(T.Enc(t))} else {}) + Below(t)
  }

  ghost function Below(t: T.Tree): set<Blob>
    decreases t, 0
  {
    match t
    case Ext(_, s) => Digests(s)
    case Branch(a, b, _) => Digests(a) + Digests(b)
    case _ => {}
  }

  /** All nodes of a trie, the root included. */
  ghost function TrieNodes(t: T.Tree): set<Blob> {
    {T.RootHash(t)} + Below(t)
  }

  /** c is referred to by the encoding of t, or by that of a node below it. */
  ghost predicate ReferredIn(t: T.Tree, c: Blob) {
    c in HashRefs(T.Enc(t)) || exists p :: p in Below(t) && p.Keccak? && c in HashRefs(p.preimage)
  }

  lemma {:induction false} BelowReferred(t: T.Tree, c: Blob)
    requires T.Canon(t) && c in Below(t)
    ensures ReferredIn(t, c)
    decreases t, 1
  {
    var items := T.Enc(t).items;
    match t
    case Ext(k, s) =>
      T.CanonPath(k, s);
      CompactRoundTrip(k);
      KidReferred(s, c);
    case Branch(a, b, _) =>
      assert HashRefs(T.Enc(t)) == RefsOf(T.Ref(a)) + RefsOf(T.Ref(b));
      if c in Digests(a) {
        KidReferred(a, c);
      } else {
        KidReferred(b, c);
      }
  }

  lemma {:induction false} KidReferred(t: T.Tree, c: Blob)
    requires T.Root(t) && c in Digests(t)
    ensures c in RefsOf(T.Ref(t)) || exists p :: p in Digests(t) && p.Keccak? && c in HashRefs(p.preimage)
    decreases t, 2
  {
    if !t.Nil? {
      T.RefOfCanon(t);
      var h := Keccak(T.Enc(t));
      if Size(T.Enc(t)) >= HASH_LEN {
        assert RefsOf(T.Ref(t)) == [h];
      } else {
        assert RefsOf(T.Ref(t)) == HashRefs(T.Enc(t));
      }
      if c in Below(t) {
        BelowReferred(t, c);
        if c in HashRefs(T.Enc(t)) && Size(T.Enc(t)) >= HASH_LEN {
          assert h in Digests(t) && c in HashRefs(h.preimage);
        }
      }
    }
  }

  /** Every node of a trie but the root is referred to by one. */
  lemma NodeReferred(t: T.Tree, c: Blob) returns (p: Blob)
    requires T.Canon(t) && c in Below(t)
    ensures p in TrieNodes(t) && p.Keccak? && c in HashRefs(p.preimage)
  {
    BelowReferred(t, c);
    if c in HashRefs(T.Enc(t)) {
      p := T.RootHash(t);
    } else {
      p :| p in Below(t) && p.Keccak? && c in HashRefs(p.preimage);
    }
  }

  // ----- counts stay tight

  ghost predicate AllTight(f: Snapshot) {
    forall x :: x in f.c.dirties && x != ZERO && x !in f.c.disk ==> Tight(f, x)
  }

  ghost predicate Quiet(f: Snapshot) {
    Good(f) && f.pend == multiset{} && f.dying == {}
  }

  lemma QuietFacts(f: Snapshot)
    requires Quiet(f)
    ensures ZERO in f.c.dirties && ZERO !in f.order && forall x :: x in f.order ==> x in f.c.dirties
    ensures Distinct(f.order)
    ensures forall x :: x in f.c.dirties ==> x == ZERO || x in f.order
  {
    assert Opens(0);
  }

  lemma NobodyKnows(f: Snapshot, h: Blob)
    requires Quiet(f) && h !in f.c.dirties && h !in f.c.disk
    ensures Refs(f.order, f.c.dirties, h) + RootRefs(f.c.dirties, h) == 0
  {
    assert Opens(0);
    UnknownUnreferenced(f.c.dirties, f.c.disk, f.order, multiset{}, h);
  }

  /** A new node counts where it refers to, and nobody refers to it. */
  lemma InsertTight(f: Snapshot, g: Snapshot, h: Blob, item: Item)
    requires Quiet(f) && AllTight(f) && h !in f.c.dirties && h == Keccak(item)
    requires Joined(f.c.dirties, g.c.dirties, h, item) && g.order == f.order + [h]
    requires g.c.disk == f.c.disk && g.pend == multiset{}
    ensures AllTight(g)
  {
    QuietFacts(f);
    forall x | x in g.c.dirties && x != ZERO && x !in g.c.disk
      ensures Tight(g, x)
    {
      RefsSplit(f.order, [h], g.c.dirties, x);
      RefsOne(h, g.c.dirties, x);
      RefsSame(f.order, f.c.dirties, g.c.dirties, x);
      if x == h {
        NobodyKnows(f, h);
        if h in HashRefs(item) {
          RefsLower(item, h);
        }
      } else {
        assert Tight(f, x);
      }
    }
  }

  /** A reference is counted once. */
  lemma ReferenceTight(f: Snapshot, g: Snapshot, child: Blob, parent: Blob)
    requires Quiet(f) && AllTight(f) && child in f.c.dirties && parent in f.c.dirties
    requires parent == ZERO || child !in f.c.dirties[parent].children
    requires Referred(f.c.dirties, g.c.dirties, child, parent) && g.order == f.order
    requires g.c.disk == f.c.disk && g.pend == multiset{}
    ensures AllTight(g)
  {
    QuietFacts(f);
    forall x | x in g.c.dirties && x != ZERO && x !in g.c.disk
      ensures Tight(g, x)
    {
      assert Tight(f, x);
      if parent == ZERO {
        RefsSame(f.order, f.c.dirties, g.c.dirties, x);
      } else {
        OneMoreOwed(f.c.dirties, g.c.dirties, f.order, parent, child, x);
      }
    }
  }

  lemma OneMoreOwed(d: Dirties, e: Dirties, order: seq<Blob>, p: Blob, c: Blob, x: Blob)
    requires Distinct(order) && p in order && p in d && p != ZERO && c !in d[p].children && Referred(d, e, c, p)
    requires forall h :: h in order ==> h in d
    requires ZERO in d
    ensures Refs(order, e, x) == Refs(order, d, x) + (if x == c then 1 else 0) && RootRefs(e, x) == RootRefs(d, x)
  {
    var i :| 0 <= i < |order| && order[i] == p;
    RefsWithout(order, i, d, x);
    RefsWithout(order, i, e, x);
    WithoutElements(order, i);
    RefsSame(Without(order, i), d, e, x);
  }

  lemma RemovalTight(f: Snapshot, g: Snapshot)
    requires AllTight(f) && Even(f, g) && g.c.disk == f.c.disk
    ensures AllTight(g)
  {
    forall x | x in g.c.dirties && x != ZERO && x !in g.c.disk
      ensures Tight(g, x)
    {
      assert EvenAt(f, g, x) && Tight(f, x);
    }
  }

  datatype Op = Adds(item: Item) | Holds(root: Blob) | Drops(root: Blob)

  /** Nodes inserted after their children, references taken, and references given up that were held. */
  method Work(db: Database, op: Op)
    requires db.Valid() && AllTight(db.Now())
    requires op.Adds? ==> forall c :: c in HashRefs(op.item) ==> c in db.Contents()
    modifies db
    ensures db.Valid() && AllTight(db.Now())
  {
    ghost var f := db.Now();
    match op {
      case Adds(item) =>
        db.Insert(Keccak(item), item);
        if Keccak(item) !in f.c.dirties {
          InsertTight(f, db.Now(), Keccak(item), item);
        }
      case Holds(r) =>
        if r != ZERO {
          db.Reference(r, ZERO);
          if r in f.c.dirties {
            ReferenceTight(f, db.Now(), r, ZERO);
          }
        }
      case Drops(r) =>
        var roots := db.dirties[ZERO].children;
        if r in roots {
          db.Dereference(r);
          RemovalTight(f, db.Now());
        }
    }
  }

  // ----- the last reference to a trie

  /** The node that a dirty node's digest was computed from. */
  lemma DirtyPreimage(f: Snapshot, p: Blob)
    requires Good(f) && f.dying == {} && p in f.c.dirties && p.Keccak?
    ensures f.c.dirties[p].node == p.preimage && p in f.order
  {
    assert Opens(0);
  }

  lemma TrieOwed(f: Snapshot, t: T.Tree)
    requires Good(f) && f.dying == {} && T.Canon(t) && OnlyWithin(f, T.RootHash(t), TrieNodes(t))
    ensures AllOwed(f, TrieNodes(t))
  {
    forall c | c in TrieNodes(t)
      ensures Owed(f, c) > 0
    {
      if c != T.RootHash(t) {
        var p := NodeReferred(t, c);
        assert Tight(f, p);
        DirtyPreimage(f, p);
        var i :| 0 <= i < |f.order| && f.order[i] == p;
        assert c in multiset(HashRefs(f.c.dirties[p].node));
        RefsAtLeast(f.order, i, f.c.dirties, c);
      }
    }
  }

  /**
    The last reference to a trie is given up: if nobody else refers to its nodes, none of them is
    left, however deep it is.
   */
  method DropLast(db: Database, root: Blob, ghost t: T.Tree)
    requires db.Valid() && T.Canon(t) && root == T.RootHash(t) && OnlyWithin(db.Now(), root, TrieNodes(t))
    modifies db
    ensures db.Valid() && forall c :: c in TrieNodes(t) ==> c !in db.Contents()
  {
    ghost var f := db.Now();
    TrieOwed(f, t);
    GoodFramed(f);
    assert Tight(f, root);
    db.Dereference(root);
    ghost var g := db.Now();
    GoodFramed(g);
    forall c | c in TrieNodes(t)
      ensures c !in db.Contents()
    {
      NoneLeft(f, g, root, TrieNodes(t), c);
      assert Tight(f, c);
    }
  }
}
