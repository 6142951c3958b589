/**
  The write-back node database: dirty nodes with reference counts, a flush list threaded through
  them, and the disk behind. Nodes leave memory when nothing refers to them or once they are on disk.
 */
module Database {
  import opened Encoding
  import opened Rlp
  import opened Seal
  import opened Nodes
  import opened NodeCache
  import opened Teardown
  import T = Trees

  const IDEAL_BATCH_SIZE := 100 * 1024

  class Database {
    var disk: Store
    var dirties: Dirties
    var oldest: Blob
    var newest: Blob
    ghost var order: seq<Blob>     // the flush list, oldest first
    ghost var dying: set<Blob>     // nodes being torn down: out of the list, still in the map
    ghost var pend: multiset<Blob> // references of theirs that are still counted

    ghost function Value(): Cache
      reads this
    {
      Cache(disk, dirties, oldest, newest)
    }

    ghost predicate Valid()
      reads this
    {
      Kept(Value(), order, dying, pend) && dying == {} && pend == multiset{} && ZERO in dirties
    }

    /** What Node answers. */
    ghost function Contents(): Store
      reads this
    {
      View(dirties, disk)
    }

    /** The live roots, with the number of references to each. */
    ghost function Roots(): map<Blob, nat>
      requires Valid()
      reads this
    {
      dirties[ZERO].children
    }

    constructor (store: Store)
      requires StoreOk(store) && Closed(store)
      ensures Valid() && disk == store && Contents() == store && Roots() == map[]
    {
      disk := store;
      dirties := map[ZERO := Cached(EMPTY_ITEM, 0, map[], ZERO, ZERO)];
      oldest, newest := ZERO, ZERO;
      order, dying, pend := [], {}, multiset{};
    }

    method Node(hash: Blob) returns (r: Option<Item>)
      requires Valid()
      ensures r == if hash in Contents() then Some(Contents()[hash]) else None
    {
      if hash == ZERO {
        return None;
      }
      if hash in dirties {
        return Some(dirties[hash].node);
      }
      r := if hash in disk then Some(disk[hash]) else None;
    }

    /** Caches a node whose children are there already. */
    method Insert(hash: Blob, item: Item)
      requires Valid() && hash == Keccak(item)
      requires forall c :: c in HashRefs(item) ==> c in Contents()
      modifies this
      ensures Valid() && disk == old(disk) && Roots() == old(Roots())
      ensures Contents() == old(Contents())[hash := item]
      ensures if hash in old(dirties) then Now() == old(Now())
          else Joined(old(dirties), dirties, hash, item) && order == old(order) + [hash]
    {
      if hash in dirties {
        KnownView(Value(), order, hash, item);
        return;
      }
      InsertNew(hash, item);
    }

    method InsertNew(hash: Blob, item: Item)
      requires Valid() && hash == Keccak(item) && hash !in dirties
      requires forall c :: c in HashRefs(item) ==> c in Contents()
      modifies `dirties, `oldest, `newest, `order
      ensures Inserts(old(Value()), old(order), Value(), hash, item) && order == old(order) + [hash]
      ensures Joined(old(dirties), dirties, hash, item)
    {
      CreditChildren(item);
      InsertDone(old(Value()), order, dirties, hash, item);
      Append(hash, item);
      order := order + [hash];
    }

    method Append(hash: Blob, item: Item)
      requires oldest == ZERO || newest in dirties
      modifies `dirties, `oldest, `newest
      ensures Value() == Appended(old(Value()), hash, item)
    {
      dirties := dirties[hash := Fresh(item, newest)];
      if oldest == ZERO {
        oldest, newest := hash, hash;
      } else {
        dirties, newest := SetNext(dirties, newest, hash), hash;
      }
    }

    method CreditChildren(item: Item)
      modifies `dirties
      ensures Credited(old(dirties), dirties, HashRefs(item))
    {
      ghost var d := dirties;
      var refs := HashRefs(item);
      for i := 0 to |refs|
        invariant Credited(d, dirties, refs[..i])
      {
        CreditOne(d, dirties, refs, i);
        CreditChild(refs[i]);
      }
      assert refs[..|refs|] == refs;
    }

    method CreditChild(c: Blob)
      modifies `dirties
      ensures dirties == Credit(old(dirties), c)
    {
      if c in dirties {
        dirties := dirties[c := dirties[c].(parents := dirties[c].parents + 1)];
      }
    }

    /** Adds an external reference; below the meta root a second one from the same node is ignored. */
    method Reference(child: Blob, parent: Blob)
      requires Valid() && child != ZERO && parent in dirties
      requires parent != ZERO ==> Height(child) < Height(parent)
      modifies `dirties
      ensures Valid() && Contents() == old(Contents())
      ensures Roots() == if parent == ZERO && child in old(dirties) then More(old(Roots()), child) else old(Roots())
      ensures if child in old(dirties) && (parent == ZERO || child !in old(dirties)[parent].children)
          then Referred(old(dirties), dirties, child, parent) else dirties == old(dirties)
    {
      if child !in dirties {
        return;
      }
      if parent != ZERO && child in dirties[parent].children {
        return;
      }
      ReferDone(Value(), order, child, parent);
      dirties := Referenced(dirties, child, parent);
    }

    /** Takes a node out of the flush list. */
    method Unlink(h: Blob) returns (ghost i: nat)
      requires Strung(Value(), order) && h in order && h in dirties
      modifies `dirties, `oldest, `newest
      ensures i < |order| && order[i] == h
      ensures Relinked(old(dirties), dirties) && Strung(Value(), Without(order, i))
    {
      i :| 0 <= i < |order| && order[i] == h;
      assert Opens(0);
      var node := dirties[h];
      if h == oldest {
        UnlinkFirst(dirties, oldest, newest, order);
        oldest := node.next;
        dirties := SetPrev(dirties, node.next, ZERO);
      } else if h == newest {
        UnlinkLast(dirties, oldest, newest, order);
        newest := node.prev;
        dirties := SetNext(dirties, node.prev, ZERO);
      } else {
        UnlinkMiddle(dirties, oldest, newest, order, i);
        dirties := SetNext(dirties, node.prev, node.next);
        dirties := SetPrev(dirties, node.next, node.prev);
      }
      StrungOf(Value(), Without(order, i));
    }

    ghost function Now(): Snapshot
      reads this
    {
      Snapshot(Value(), order, dying, pend)
    }

    /**
      Gives up one reference to a root; what only it kept alive is forgotten: each count goes down by
      exactly the references that are gone, and no node whose count gets to zero stays. Nothing checks that the
      reference was ever taken: dropping one too many breaks the counts exactly if every counted
      reference is still in use.
     */
    method Dereference(root: Blob)
      requires Valid()
      modifies this
      ensures Valid() <==> old(Droppable(Value(), order, root))
      ensures disk == old(disk) && ZERO in dirties
      ensures dirties[ZERO].children ==
              if root in old(Roots()) then Less(old(Roots()), root) else old(Roots())
      ensures forall h :: h in Contents() ==> h in old(Contents()) && Contents()[h] == old(Contents())[h]
      ensures forall h :: h in old(dirties) && h != ZERO && Height(h) > Height(root) ==> h in dirties
      ensures root != ZERO && root in old(dirties) && old(dirties)[root].parents <= 1 ==> root !in dirties
      ensures ZerosGone(old(Now()), Now()) && pend == multiset{} && dying == {}
      ensures old(Droppable(Value(), order, root)) ==> EvenBut(old(Now()), Now(), root)
      ensures root in old(Roots()) ==> Even(old(Now()), Now())
      ensures old(Droppable(Value(), order, root)) && root != ZERO && root in dirties ==>
                root in old(dirties) && dirties[root].parents + 1 == old(dirties)[root].parents
    {
      if root == ZERO {
        MetaRootFree(Value(), order);
        return;
      }
      ghost var f := Now();
      DropRoot(root);
      ghost var g := Now();
      Release(root);
      CascadesFacts(g, Now(), root);
      DereferenceView(f.c, f.order, root, dirties);
      DereferenceExact(f, g.(pend := multiset{}), Now(), root);
      if Droppable(f.c, f.order, root) {
        DereferenceEven(f, g.(pend := multiset{}), Now(), root);
      }
    }

    method DropRoot(root: Blob)
      requires Valid() && root != ZERO
      modifies `dirties, `pend
      ensures dirties == Dropped(old(dirties), root, ZERO) && pend == multiset{root} && Framed(Now())
    {
      ghost var f := Now();
      GoodFramed(f);
      DropFramed(f, root, ZERO);
      if root in dirties[ZERO].children {
        dirties := dirties[ZERO := dirties[ZERO].(children := Less(dirties[ZERO].children, root))];
      }
      FramedPend(Now(), multiset{root});
      pend := multiset{root};
    }

    /** The recursive step: a node that is being torn down drops one of its references. */
    method DereferenceFrom(child: Blob, parent: Blob)
      requires Framed(Now()) && parent in dying && parent in dirties && Under(dying, child) && child in pend
      modifies `dirties, `oldest, `newest, `order, `dying, `pend
      ensures Cascades(old(Now()), Now(), child) && dying == old(dying) && pend == old(pend) - multiset{child}
      ensures ZerosGone(old(Now()), Now())
      decreases Height(child), 3
    {
      ghost var f := Now();
      DropStep(f, child, parent, child);
      if child in dirties[parent].children {
        dirties := dirties[parent := dirties[parent].(children := Less(dirties[parent].children, child))];
      }
      ghost var g := Now();
      Release(child);
      CascadesTrans(f, g, Now(), child, child, child);
    }

    /** One reference to child is gone. */
    method Release(child: Blob)
      requires Framed(Now()) && Under(dying, child) && child in pend
      modifies `dirties, `oldest, `newest, `order, `dying, `pend
      ensures Cascades(old(Now()), Now(), child) && dying == old(dying) && pend == old(pend) - multiset{child}
      ensures Releases(old(Now()), Now(), child)
      ensures ZerosGone(old(Now()), Now())
      decreases Height(child), 2
    {
      ghost var f := Now();
      if child !in dirties {
        GoneStep(f, child);
        pend := pend - multiset{child};
        return;
      }
      UncountStep(f, child);
      dirties := Uncounted(dirties, child);
      pend := pend - multiset{child};
      ghost var g := Now();
      CascadesSelf(g, child);
      if dirties[child].parents == 0 {
        TearDown(child);
        CascadesTrans(f, g, Now(), child, child, child);
      }
    }

    /** Removes a node nobody refers to: first from the list, then its references, then itself. */
    method TearDown(h: Blob)
      requires Framed(Now()) && Under(dying, h) && h in dirties && dirties[h].parents == 0
      modifies `dirties, `oldest, `newest, `order, `dying, `pend
      ensures Cascades(old(Now()), Now(), h) && dying == old(dying) && pend == old(pend) && h !in dirties
      ensures ZerosGone(old(Now()), Now())
      decreases Height(h), 1
    {
      ghost var f := Now();
      var node := StartTearDown(h);
      ghost var g := Now();
      DropChildren(h, node, f.pend);
      CascadesTrans(f, g, Now(), h, h, h);
      FinishTearDown(f, h);
    }

    method FinishTearDown(ghost f: Snapshot, h: Blob)
      requires ZerosGone(f, Now()) && Framed(Now()) && Cascades(f, Now(), h)
      requires h in dying && h !in f.dying && dying == f.dying + {h}
      modifies `dirties, `dying
      ensures ZerosGone(f, Now()) && Cascades(f, Now(), h) && dying == f.dying && h !in dirties
    {
      ghost var g := Now();
      ForgetStep(g, h);
      dirties, dying := dirties - {h}, dying - {h};
      CascadesTrans(f, g, Now(), h, h, h);
    }

    method StartTearDown(h: Blob) returns (node: Cached)
      requires Framed(Now()) && Under(dying, h) && h in dirties && dirties[h].parents == 0
      modifies `dirties, `oldest, `newest, `order, `dying, `pend
      ensures Cascades(old(Now()), Now(), h) && dying == old(dying) + {h} && h !in old(dying)
      ensures pend == old(pend) + Kids(node) && AllUnder(dying, node)
      ensures ZerosGone(old(Now()), Now())
    {
      node := dirties[h];
      LeaveList(h);
      KidsUnder(old(dying), h, node);
    }

    method LeaveList(h: Blob)
      requires Framed(Now()) && h in dirties && h != ZERO && h !in dying && dirties[h].parents == 0
      modifies `dirties, `oldest, `newest, `order, `dying, `pend
      ensures Cascades(old(Now()), Now(), h) && dying == old(dying) + {h}
      ensures pend == old(pend) + Kids(old(dirties)[h]) && Lower(Kids(old(dirties)[h]), h)
      ensures ZerosGone(old(Now()), Now())
    {
      ghost var f := Now();
      FramedKeys(f);
      ghost var i := Unlink(h);
      ghost var c := Value();
      LeaveStep(f, c, i);
      ghost var w, kids := Without(order, i), Kids(f.c.dirties[h]);
      order, dying, pend := w, dying + {h}, pend + kids;
      assert Now() == Snapshot(c, w, f.dying + {h}, f.pend + kids);
    }

    method DropChildren(h: Blob, node: Cached, ghost rest: multiset<Blob>)
      requires Framed(Now()) && h in dying && AllUnder(dying, node)
      requires pend == rest + Kids(node)
      modifies `dirties, `oldest, `newest, `order, `dying, `pend
      ensures Cascades(old(Now()), Now(), h) && dying == old(dying) && pend == rest
      ensures ZerosGone(old(Now()), Now())
      decreases Height(h), 0, 1
    {
      ghost var f := Now();
      assert pend == rest + multiset(HashRefs(node.node)) + multiset(node.children.Keys);
      DropExternal(h, node.children.Keys, rest + multiset(HashRefs(node.node)));
      ghost var g := Now();
      DropHashes(h, HashRefs(node.node), rest);
      CascadesTrans(f, g, Now(), h, h, h);
    }

    /** External children go first, in any order. */
    method DropExternal(h: Blob, children: set<Blob>, ghost rest: multiset<Blob>)
      requires Framed(Now()) && h in dying && pend == rest + multiset(children)
      requires forall k :: k in children ==> Under(dying, k)
      modifies `dirties, `oldest, `newest, `order, `dying, `pend
      ensures Cascades(old(Now()), Now(), h) && dying == old(dying) && pend == rest
      ensures ZerosGone(old(Now()), Now())
      decreases Height(h), 0, 0
    {
      ghost var f := Now();
      CascadesSelf(f, h);
      var ext := children;
      while ext != {}
        invariant ext <= children
        invariant Framed(Now()) && ZerosGone(f, Now()) && Cascades(f, Now(), h) && dying == old(dying)
        invariant pend == rest + multiset(ext)
        decreases ext
      {
        var c :| c in ext;
        DropOne(f, h, c);
        ext := ext - {c};
      }
    }

    method DropOne(ghost f: Snapshot, h: Blob, c: Blob)
      requires ZerosGone(f, Now())
      requires Framed(Now()) && Cascades(f, Now(), h) && f.dying == dying && h in dying && Under(dying, c) && c in pend
      modifies `dirties, `oldest, `newest, `order, `dying, `pend
      ensures ZerosGone(f, Now())
      ensures Framed(Now()) && Cascades(f, Now(), h) && dying == old(dying) && pend == old(pend) - multiset{c}
      decreases Height(c), 4
    {
      ghost var g := Now();
      FramedKeys(g);
      DereferenceFrom(c, h);
      CascadesTrans(f, g, Now(), h, c, h);
      ZerosTrans(f, g, Now());
    }

    method DropHashes(h: Blob, refs: seq<Blob>, ghost rest: multiset<Blob>)
      requires Framed(Now()) && h in dying && pend == rest + multiset(refs)
      requires forall k :: k in refs ==> Under(dying, k)
      modifies `dirties, `oldest, `newest, `order, `dying, `pend
      ensures Cascades(old(Now()), Now(), h) && dying == old(dying) && pend == rest
      ensures ZerosGone(old(Now()), Now())
      decreases Height(h), 0, 0
    {
      ghost var f := Now();
      CascadesSelf(f, h);
      for j := 0 to |refs|
        invariant Framed(Now()) && ZerosGone(f, Now()) && Cascades(f, Now(), h) && dying == old(dying)
        invariant pend == rest + multiset(refs[j..])
      {
        TailMultiset(refs, j);
        assert refs[j] in refs && Under(dying, refs[j]);
        DropOne(f, h, refs[j]);
        assert pend == rest + multiset(refs[j + 1..]);
      }
    }

    /** Moves the n oldest nodes to disk, or all if there are fewer. */
    method Cap(n: nat)
      requires Valid()
      modifies this
      ensures Valid() && Contents() == old(Contents()) && Roots() == old(Roots())
      ensures Remains(old(dirties), dirties)
      ensures var k := if n < |old(order)| then n else |old(order)|;
              && order == old(order)[k..]
              && forall h :: h in disk <==> h in old(disk) || h in old(order)[..k]
    {
      var batch, last := CollectFront(n);
      ghost var k := |batch|;
      FrontWritable(Value(), order, k, batch);
      PersistKeeps(Value(), order, batch);
      FrontKeys(Value(), order, k, batch);
      disk := Written(disk, batch);
      DropFront(last, k);
      if oldest != ZERO {
        HeadMoves(Value(), order);
        dirties := SetPrev(dirties, oldest, ZERO);
      }
    }

    method CollectFront(n: nat) returns (batch: seq<Entry>, last: Blob)
      requires Valid()
      ensures |batch| == (if n < |order| then n else |order|)
      ensures Front(dirties, order, |batch|, batch) && last == At(order, |batch|)
    {
      KeptListed(Value(), order, dying, pend);
      batch, last := [], oldest;
      while |batch| < n && last != ZERO
        invariant |batch| <= n && Front(dirties, order, |batch|, batch) && last == At(order, |batch|)
        decreases n - |batch|
      {
        FrontNext(Value(), order, |batch|, batch);
        var node := dirties[last];
        batch := batch + [Entry(last, node.node)];
        last := node.next;
      }
      assert |batch| < |order| ==> At(order, |batch|) in order;
    }

    /** Forgets the nodes before last; their links need no repair. */
    method DropFront(last: Blob, ghost k: nat)
      requires Valid() && k <= |order| && last == At(order, k)
      requires forall j :: 0 <= j < k ==> order[j] in disk
      modifies `dirties, `oldest, `order
      ensures Valid() && Contents() == old(Contents()) && Roots() == old(Roots()) && order == old(order)[k..]
      ensures Remains(old(dirties), dirties)
    {
      ghost var i, o := 0, order;
      KeptListed(Value(), order, dying, pend);
      while oldest != last
        invariant i <= k && order == o[i..] && Valid() && oldest == At(order, 0)
        invariant Contents() == old(Contents()) && Roots() == old(Roots()) && Remains(old(dirties), dirties)
        decreases k - i
      {
        StillBeforeLast(Value(), order, dying, pend, o, i, k);
        PopOldest();
        i := i + 1;
      }
      FrontReached(Value(), order, dying, pend, o, i, k);
    }

    method PopOldest()
      requires Valid() && |order| > 0 && order[0] in disk
      modifies `dirties, `oldest, `order
      ensures Valid() && Contents() == old(Contents()) && Roots() == old(Roots())
      ensures order == old(order)[1..] && oldest == At(order, 0) && Remains(old(dirties), dirties)
    {
      PopMoves(Value(), order);
      var node := dirties[oldest];
      dirties := dirties - {oldest};
      oldest := node.next;
      order := order[1..];
    }

    /** Once on disk, a node is taken out of memory. */
    method Put(hash: Blob)
      requires Valid() && hash in disk && hash != ZERO
      modifies `dirties, `oldest, `newest, `order
      ensures Valid() && Contents() == old(Contents()) && Roots() == old(Roots())
      ensures dirties.Keys == old(dirties).Keys - {hash} && Remains(old(dirties), dirties)
    {
      if hash !in dirties {
        return;
      }
      KeptKeys(Value(), order, dying, pend);
      KeptStrung(Value(), order, dying, pend);
      ghost var i := Unlink(hash);
      PutMoves(old(Value()), Value(), order, i);
      dirties := dirties - {hash};
      order := Without(order, i);
    }

    /** Writes a batch and replays it to forget what has been written. */
    method WriteBatch(batch: seq<Entry>)
      requires Valid() && BatchOk(Value(), batch)
      modifies `disk, `dirties, `oldest, `newest, `order
      ensures Valid() && Contents() == old(Contents()) && Roots() == old(Roots())
      ensures forall x :: x in disk <==> Safe(old(disk), batch, x)
      ensures Remains(old(dirties), dirties)
    {
      PersistKeeps(Value(), order, batch);
      KeptView(Value(), order);
      WrittenKeys(disk, batch);
      disk := Written(disk, batch);
      for i := 0 to |batch|
        invariant Valid() && Contents() == old(Contents()) && Roots() == old(Roots())
        invariant disk == Written(old(disk), batch) && Remains(old(dirties), dirties)
      {
        assert InBatch(batch, batch[i].key);
        Put(batch[i].key);
      }
    }

    /** Puts a node and all it refers to on disk. */
    method Commit(root: Blob)
      requires Valid() && root != ZERO
      modifies this
      ensures Valid() && Contents() == old(Contents()) && Roots() == old(Roots())
      ensures root in Contents() ==> root in disk
      ensures forall x :: x in old(disk) ==> x in disk
      ensures Remains(old(dirties), dirties)
    {
      var batch := CommitNode(root, []);
      WriteBatch(batch);
    }

    ghost predicate Gathering(batch: seq<Entry>)
      reads this
    {
      Valid() && BatchOk(Value(), batch)
    }

    /** Children first; full batches are written and forgotten on the way. */
    method CommitNode(hash: Blob, batch: seq<Entry>) returns (out: seq<Entry>)
      requires Gathering(batch) && hash != ZERO
      modifies `disk, `dirties, `oldest, `newest, `order
      ensures Gathering(out) && Contents() == old(Contents()) && Roots() == old(Roots())
      ensures forall x :: Safe(old(disk), batch, x) ==> Safe(disk, out, x)
      ensures Remains(old(dirties), dirties)
      ensures hash in Contents() ==> Safe(disk, out, hash)
      decreases Height(hash), 1
    {
      if hash !in dirties {
        return batch;
      }
      var node := dirties[hash];
      CommitKids(Value(), order, hash);
      out := CommitExternal(hash, node.children.Keys, batch);
      out := CommitHashes(hash, HashRefs(node.node), out);
      BatchAdd(Value(), out, hash, node.node);
      out := out + [Entry(hash, node.node)];
      if BatchSize(out) >= IDEAL_BATCH_SIZE {
        WriteBatch(out);
        out := [];
      }
    }

    method CommitExternal(h: Blob, children: set<Blob>, batch: seq<Entry>) returns (out: seq<Entry>)
      requires Gathering(batch) && forall c :: c in children ==> c != ZERO && Height(c) < Height(h)
      modifies `disk, `dirties, `oldest, `newest, `order
      ensures Gathering(out) && Contents() == old(Contents()) && Roots() == old(Roots())
      ensures forall x :: Safe(old(disk), batch, x) ==> Safe(disk, out, x)
      ensures Remains(old(dirties), dirties)
      decreases Height(h), 0
    {
      var ext := children;
      out := batch;
      while ext != {}
        invariant ext <= children
        invariant Gathering(out) && Contents() == old(Contents()) && Roots() == old(Roots())
        invariant forall x :: Safe(old(disk), batch, x) ==> Safe(disk, out, x)
        invariant Remains(old(dirties), dirties)
        decreases ext
      {
        var c :| c in ext;
        out := CommitNode(c, out);
        ext := ext - {c};
      }
    }

    method CommitHashes(h: Blob, refs: seq<Blob>, batch: seq<Entry>) returns (out: seq<Entry>)
      requires Gathering(batch) && forall c :: c in refs ==> c != ZERO && Height(c) < Height(h) && c in Contents()
      modifies `disk, `dirties, `oldest, `newest, `order
      ensures Gathering(out) && Contents() == old(Contents()) && Roots() == old(Roots())
      ensures forall x :: Safe(old(disk), batch, x) ==> Safe(disk, out, x)
      ensures Remains(old(dirties), dirties)
      ensures forall c :: c in refs ==> Safe(disk, out, c)
      decreases Height(h), 0
    {
      out := batch;
      for i := 0 to |refs|
        invariant Gathering(out) && Contents() == old(Contents()) && Roots() == old(Roots())
        invariant forall x :: Safe(old(disk), batch, x) ==> Safe(disk, out, x)
        invariant Remains(old(dirties), dirties)
        invariant forall j :: 0 <= j < i ==> Safe(disk, out, refs[j])
      {
        out := CommitNode(refs[i], out);
      }
    }
  }

  function BatchSize(batch: seq<Entry>): nat {
    if |batch| == 0 then 0 else BatchSize(batch[..|batch| - 1]) + Size(batch[|batch| - 1].value)
  }

  /** Every dirty node but the meta root is in the flush list exactly once, linked both ways. */
  lemma FlushListExact(db: Database)
    requires db.Valid()
    ensures Distinct(db.order) && Chained(db.dirties, db.oldest, db.newest, db.order)
    ensures forall h :: h in db.dirties <==> h == ZERO || h in db.order
  {
    KeptListed(db.Value(), db.order, {}, multiset{});
    KeptExact(db.Value(), db.order);
  }

  /**
    One drop too many: a node that is only counted for the dirty node above it is gone after a
    dereference of it, and the node above refers to nothing.
   */
  method DropTooMany(db: Database, p: Blob, h: Blob)
    requires db.Valid() && p in db.order && p in db.dirties && h in HashRefs(db.dirties[p].node)
    requires h !in db.disk && h in db.dirties && db.dirties[h].parents == 1
    modifies db
    ensures !db.Valid() && p in db.Contents() && h in HashRefs(db.Contents()[p]) && h !in db.Contents()
  {
    OneReferrer(db.Value(), db.order, p, h);
    db.Dereference(h);
  }

  lemma OneReferrer(c: Cache, order: seq<Blob>, p: Blob, h: Blob)
    requires Kept(c, order, {}, multiset{}) && p in order && p in c.dirties && h in HashRefs(c.dirties[p].node)
    requires h !in c.disk && h in c.dirties && c.dirties[h].parents == 1
    ensures ZERO in c.dirties && h != ZERO && !Droppable(c, order, h)
    ensures p != ZERO && Height(p) > Height(h) && p in View(c.dirties, c.disk)
        && View(c.dirties, c.disk)[p] == c.dirties[p].node
  {
    KeptExact(c, order);
    CommitKids(c, order, p);
    CountedOnce(c, order, p, h);
  }

  /** After every operation, every trie whose root is live can be read as a whole. */
  lemma LiveTrieReadable(db: Database, t: T.Tree)
    requires db.Valid() && T.Canon(t) && (T.RootHash(t) in db.Roots() || T.RootHash(t) in db.dirties)
    ensures Readable(db.Contents(), t)
  {
    KeptView(db.Value(), db.order);
    ClosedReadable(db.Contents(), t);
  }

  /** After a commit of its root, a trie can be read from the disk alone. */
  lemma CommittedTrieReadable(db: Database, t: T.Tree)
    requires db.Valid() && T.Canon(t) && T.RootHash(t) in db.disk
    ensures Readable(db.disk, t)
  {
    KeptView(db.Value(), db.order);
    ClosedReadable(db.disk, t);
  }
}
