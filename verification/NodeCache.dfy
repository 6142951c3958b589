/**
  What the node database has to keep true: the flush list threaded through the dirty nodes, the
  reference counts, and that everything a dirty node or a persisted node refers to can be read.
 */
module NodeCache {
  import opened Encoding
  import opened Rlp
  import opened Nodes
  import opened Seal
  import T = Trees

  // ----- references of a stored node

  /** The hashes a stored node refers to, one for each occurrence, also inside embedded nodes. */
  function HashRefs(item: Item): seq<Blob>
    decreases item, 0
  {
    match item
    case Str(_) => []
    case List(items) =>
      if |items| == 2 then (if IsLeafKey(items[0]) then [] else RefsOf(items[1]))
      else if |items| == 3 then RefsOf(items[0]) + RefsOf(items[1])
      else []
  }

  function RefsOf(item: Item): seq<Blob>
    decreases item, 1
  {
    match item
    case Str(b) => if Len(b) == HASH_LEN then [b] else []
    case List(_) => HashRefs(item)
  }

  predicate Terminated(key: Option<seq<byte>>) {
    key.Some? && HasTerm(key.value)
  }

  predicate IsLeafKey(item: Item) {
    item.Str? && item.blob.Raw? && Terminated(Decompact(item.blob.bytes))
  }

  /** A node never refers to itself, directly or around a cycle. */
  lemma {:induction false} RefsLower(item: Item, c: Blob)
    requires c in HashRefs(item)
    ensures Height(c) <= Depth(item)
    decreases item, 0
  {
    var items := item.items;
    if |items| == 2 {
      RefsOfLower(items[1], c);
      DepthAt(items, 1);
    } else {
      DepthAt(items, 0);
      DepthAt(items, 1);
      if c in RefsOf(items[0]) {
        RefsOfLower(items[0], c);
      } else {
        RefsOfLower(items[1], c);
      }
    }
  }

  lemma {:induction false} RefsOfLower(item: Item, c: Blob)
    requires c in RefsOf(item)
    ensures Height(c) <= Depth(item)
    decreases item, 1
  {
    if item.List? {
      RefsLower(item, c);
    }
  }

  /** Whatever a stored node refers to is stored. */
  ghost predicate Closed(db: Store) {
    forall h, c :: h in db && c in HashRefs(db[h]) ==> c in db
  }

  // ----- a closed store holds whole tries

  lemma {:induction false} ClosedStored(db: Store, t: T.Tree)
    requires StoreOk(db) && Closed(db) && T.Canon(t)
    requires forall c :: c in HashRefs(T.Enc(t)) ==> c in db
    requires Size(T.Enc(t)) >= HASH_LEN ==> Keccak(T.Enc(t)) in db
    ensures Stored(db, t)
    decreases t, 0
  {
    var items := T.Enc(t).items;
    match t
    case Ext(k, s) =>
      T.CanonPath(k, s);
      CompactRoundTrip(k);
      if !s.Val? {
        assert HashRefs(T.Enc(t)) == RefsOf(items[1]) == RefsOf(T.Ref(s));
        ClosedKid(db, s);
      }
    case Branch(a, b, c) =>
      assert HashRefs(T.Enc(t)) == RefsOf(T.Ref(a)) + RefsOf(T.Ref(b));
      ClosedKid(db, a);
      ClosedKid(db, b);
  }

  lemma {:induction false} ClosedKid(db: Store, t: T.Tree)
    requires StoreOk(db) && Closed(db) && T.Root(t)
    requires forall c :: c in RefsOf(T.Ref(t)) ==> c in db
    ensures Stored(db, t)
    decreases t, 1
  {
    if !t.Nil? {
      T.RefOfCanon(t);
      if Size(T.Enc(t)) >= HASH_LEN {
        var h := Keccak(T.Enc(t));
        assert RefsOf(T.Ref(t)) == [h];
        assert h in db && db[h] == T.Enc(t);
      }
      ClosedStored(db, t);
    }
  }

  /** If the root of a trie can be read from a closed store, all of it can. */
  lemma ClosedReadable(db: Store, t: T.Tree)
    requires StoreOk(db) && Closed(db) && T.Canon(t) && T.RootHash(t) in db
    ensures Readable(db, t)
  {
    var h := Keccak(T.Enc(t));
    assert db[h] == T.Enc(t);
    ClosedStored(db, t);
  }

  // ----- dirty nodes

  /** The empty hash: it ends the flush list and names the meta root that holds the live roots. */
  const ZERO: Blob := Raw(Zeros(HASH_LEN))

  /** prev and next thread the flush list; children counts references made from outside the trie. */
  datatype Cached = Cached(node: Item, parents: nat, children: map<Blob, nat>, prev: Blob, next: Blob)

  type Dirties = map<Blob, Cached>

  ghost predicate Distinct(order: seq<Blob>) {
    forall i, j :: 0 <= i < j < |order| ==> order[i] != order[j]
  }

  /** Every dirty node but the meta root is in the flush list, unless it is being torn down. */
  ghost predicate Keyed(d: Dirties, order: seq<Blob>, dying: set<Blob>) {
    && ZERO !in order && ZERO !in dying
    && (forall h :: h in dying ==> h !in order)
    && (forall h :: h in d <==> h == ZERO || h in order || h in dying)
  }

  function At(order: seq<Blob>, i: int): Blob {
    if 0 <= i < |order| then order[i] else ZERO
  }

  /** The links run through order; the first node's back link and the end of an empty list may be stale. */
  ghost predicate Chained(d: Dirties, oldest: Blob, newest: Blob, order: seq<Blob>) {
    && oldest == At(order, 0)
    && (|order| > 0 ==> newest == order[|order| - 1])
    && (forall i :: 0 <= i < |order| ==> LinkedAt(d, order, i))
  }

  ghost predicate LinkedAt(d: Dirties, order: seq<Blob>, i: nat)
    requires i < |order|
  {
    && order[i] in d
    && d[order[i]].next == At(order, i + 1)
    && (i > 0 ==> d[order[i]].prev == At(order, i - 1))
  }

  /** How often a node refers to c. */
  function Occ(n: Cached, c: Blob): nat {
    multiset(HashRefs(n.node))[c] + if c in n.children then 1 else 0
  }

  function OccAt(d: Dirties, h: Blob, c: Blob): nat {
    if h in d then Occ(d[h], c) else 0
  }

  /** How often listed nodes refer to c. */
  function Refs(order: seq<Blob>, d: Dirties, c: Blob): nat {
    if |order| == 0 then 0 else Refs(order[..|order| - 1], d, c) + OccAt(d, order[|order| - 1], c)
  }

  function RootRefs(d: Dirties, c: Blob): nat {
    if ZERO in d && c in d[ZERO].children then d[ZERO].children[c] else 0
  }

  /** A node that is not on disk counts all references to it; pend are those still to be dropped. */
  ghost predicate Counted(d: Dirties, disk: Store, order: seq<Blob>, pend: multiset<Blob>) {
    forall c :: c in d && c != ZERO && c !in disk ==> d[c].parents >= Refs(order, d, c) + RootRefs(d, c) + pend[c]
  }

  /** Trie references go to the disk or further back in the list. */
  ghost predicate Ordered(d: Dirties, disk: Store, order: seq<Blob>) {
    forall i, c :: 0 <= i < |order| && order[i] in d && c in HashRefs(d[order[i]].node) ==> c in disk || c in order[..i]
  }

  /** External references, those of the meta root among them, go to the disk or into the list. */
  ghost predicate Anchored(d: Dirties, disk: Store, order: seq<Blob>) {
    forall h, c :: h in d && (h == ZERO || h in order) && c in d[h].children ==> c in disk || c in order
  }

  /** Digests are right and references go strictly down, except from the meta root. */
  ghost predicate Graded(d: Dirties, disk: Store) {
    && StoreOk(disk) && Closed(disk)
    && (forall h :: h in d && h != ZERO ==> h == Keccak(d[h].node))
    && (forall h, c :: h in d && h != ZERO && c in d[h].children ==> Height(c) < Height(h))
    && (forall h, c :: h in d && c in d[h].children ==> d[h].children[c] > 0)
  }

  ghost predicate Inv(d: Dirties, disk: Store, order: seq<Blob>, dying: set<Blob>, pend: multiset<Blob>) {
    && Distinct(order) && Keyed(d, order, dying)
    && Counted(d, disk, order, pend) && Ordered(d, disk, order) && Anchored(d, disk, order) && Graded(d, disk)
  }

  // ----- sums

  lemma {:induction false} RefsSplit(a: seq<Blob>, b: seq<Blob>, d: Dirties, c: Blob)
    ensures Refs(a + b, d, c) == Refs(a, d, c) + Refs(b, d, c)
  {
    if |b| == 0 {
      assert a + b == a;
    } else {
      var f := b[..|b| - 1];
      assert (a + b)[..|a + b| - 1] == a + f;
      RefsSplit(a, f, d, c);
    }
  }

  lemma {:induction false} RefsSame(order: seq<Blob>, d: Dirties, e: Dirties, c: Blob)
    requires forall h :: h in order ==> OccAt(d, h, c) == OccAt(e, h, c)
    ensures Refs(order, d, c) == Refs(order, e, c)
  {
    if |order| > 0 {
      RefsSame(order[..|order| - 1], d, e, c);
    }
  }

  function Without(order: seq<Blob>, i: nat): seq<Blob>
    requires i < |order|
  {
    order[..i] + order[i + 1..]
  }

  lemma RefsOne(h: Blob, d: Dirties, c: Blob)
    ensures Refs([h], d, c) == OccAt(d, h, c)
  {
    assert [h][..0] == [];
  }

  lemma RefsWithout(order: seq<Blob>, i: nat, d: Dirties, c: Blob)
    requires i < |order|
    ensures Refs(order, d, c) == Refs(Without(order, i), d, c) + OccAt(d, order[i], c)
  {
    var a, b := order[..i], order[i + 1..];
    assert order == (a + [order[i]]) + b;
    RefsSplit(a + [order[i]], b, d, c);
    RefsSplit(a, [order[i]], d, c);
    RefsSplit(a, b, d, c);
    RefsOne(order[i], d, c);
  }

  lemma RefsAtLeast(order: seq<Blob>, i: nat, d: Dirties, c: Blob)
    requires i < |order|
    ensures Refs(order, d, c) >= OccAt(d, order[i], c)
  {
    RefsWithout(order, i, d, c);
  }

  // ----- changes that keep the references

  ghost predicate SameRefs(d: Dirties, e: Dirties) {
    && (forall h :: h in d <==> h in e)
    && (forall h :: h in d ==> e[h].node == d[h].node && e[h].children == d[h].children)
  }

  lemma SameRefsCount(order: seq<Blob>, d: Dirties, e: Dirties, c: Blob)
    requires SameRefs(d, e)
    ensures Refs(order, d, c) == Refs(order, e, c) && RootRefs(d, c) == RootRefs(e, c)
  {
    RefsSame(order, d, e, c);
  }

  /** Counts may change by as much as the pending references do. */
  lemma Recount(d: Dirties, e: Dirties, disk: Store, order: seq<Blob>, dying: set<Blob>, pend: multiset<Blob>,
      pend': multiset<Blob>)
    requires Inv(d, disk, order, dying, pend) && SameRefs(d, e)
    requires forall c :: c in d && c != ZERO && c !in disk ==> e[c].parents + pend[c] >= d[c].parents + pend'[c]
    ensures Inv(e, disk, order, dying, pend')
  {
    forall c | c in e && c != ZERO && c !in disk
      ensures e[c].parents >= Refs(order, e, c) + RootRefs(e, c) + pend'[c]
    {
      SameRefsCount(order, d, e, c);
    }
  }

  lemma FewerPending(d: Dirties, disk: Store, order: seq<Blob>, dying: set<Blob>, pend: multiset<Blob>,
      pend': multiset<Blob>)
    requires Inv(d, disk, order, dying, pend) && pend' <= pend
    ensures Inv(d, disk, order, dying, pend')
  {
    Recount(d, d, disk, order, dying, pend, pend');
  }

  // ----- leaving the list

  function Kids(n: Cached): multiset<Blob> {
    multiset(HashRefs(n.node)) + multiset(n.children.Keys)
  }

  lemma KidsOcc(n: Cached, c: Blob)
    ensures Kids(n)[c] == Occ(n, c)
  {
  }

  lemma WithoutElements(order: seq<Blob>, i: nat)
    requires i < |order| && Distinct(order)
    ensures Distinct(Without(order, i))
    ensures forall h :: h in Without(order, i) <==> h in order && h != order[i]
    ensures forall j :: 0 <= j < i ==> Without(order, i)[j] == order[j] && Without(order, i)[..j] == order[..j]
    ensures forall j :: i <= j < |order| - 1 ==> Without(order, i)[j] == order[j + 1]
  {
    var w := Without(order, i);
    forall h | h in order && h != order[i]
      ensures h in w
    {
      var j :| 0 <= j < |order| && order[j] == h;
      assert w[if j < i then j else j - 1] == h;
    }
  }

  /** h may leave: it is on disk, or nothing refers to it. */
  ghost predicate Removable(d: Dirties, disk: Store, order: seq<Blob>, pend: multiset<Blob>, h: Blob) {
    h in disk || Refs(order, d, h) + RootRefs(d, h) + pend[h] == 0
  }

  lemma NobodyRefers(d: Dirties, disk: Store, order: seq<Blob>, h: Blob, x: Blob)
    requires Refs(order, d, h) + RootRefs(d, h) == 0 && x in d
    ensures x in order ==> h !in HashRefs(d[x].node) && h !in d[x].children
    ensures x == ZERO && h in d[x].children ==> d[x].children[h] == 0
  {
    if x in order {
      var i :| 0 <= i < |order| && order[i] == x;
      RefsAtLeast(order, i, d, h);
      KidsOcc(d[x], h);
    }
  }

  lemma OrderedWithout(d: Dirties, disk: Store, order: seq<Blob>, dying: set<Blob>, pend: multiset<Blob>, i: nat)
    requires Inv(d, disk, order, dying, pend) && i < |order| && Removable(d, disk, order, pend, order[i])
    ensures Ordered(d, disk, Without(order, i))
  {
    var h, w := order[i], Without(order, i);
    WithoutElements(order, i);
    forall j, c | 0 <= j < |w| && w[j] in d && c in HashRefs(d[w[j]].node)
      ensures c in disk || c in w[..j]
    {
      var k := if j < i then j else j + 1;
      assert w[j] == order[k];
      assert c in disk || c in order[..k];
      if c !in disk && h !in disk {
        NobodyRefers(d, disk, order, h, w[j]);
      }
      if c !in disk {
        assert c != h;
        StillBefore(order, i, j, k, c);
      }
    }
  }

  lemma StillBefore(order: seq<Blob>, i: nat, j: nat, k: nat, c: Blob)
    requires i < |order| && j < |order| - 1 && k == (if j < i then j else j + 1) && c in order[..k] && c != order[i]
    ensures c in Without(order, i)[..j]
  {
    var w := Without(order, i);
    var l :| 0 <= l < k && order[l] == c;
    assert w[if l < i then l else l - 1] == c;
  }

  lemma AnchoredWithout(d: Dirties, disk: Store, order: seq<Blob>, dying: set<Blob>, pend: multiset<Blob>, i: nat)
    requires Inv(d, disk, order, dying, pend) && i < |order| && Removable(d, disk, order, pend, order[i])
    ensures Anchored(d, disk, Without(order, i))
  {
    var h, w := order[i], Without(order, i);
    WithoutElements(order, i);
    forall x, c | x in d && (x == ZERO || x in w) && c in d[x].children
      ensures c in disk || c in w
    {
      if h !in disk {
        NobodyRefers(d, disk, order, h, x);
      }
    }
  }

  /** A node that may leave the list hands its own references over to the pending ones. */
  lemma Leave(d: Dirties, disk: Store, order: seq<Blob>, dying: set<Blob>, pend: multiset<Blob>, i: nat)
    requires Inv(d, disk, order, dying, pend) && i < |order| && Removable(d, disk, order, pend, order[i])
    ensures order[i] in d
    ensures Inv(d, disk, Without(order, i), dying + {order[i]}, pend + Kids(d[order[i]]))
  {
    var h := order[i];
    WithoutElements(order, i);
    OrderedWithout(d, disk, order, dying, pend, i);
    AnchoredWithout(d, disk, order, dying, pend, i);
    forall c | c in d && c != ZERO && c !in disk
      ensures d[c].parents >= Refs(Without(order, i), d, c) + RootRefs(d, c) + (pend + Kids(d[h]))[c]
    {
      RefsWithout(order, i, d, c);
      KidsOcc(d[h], c);
    }
  }

  /** A node that has left the list can be forgotten. */
  lemma Forget(d: Dirties, disk: Store, order: seq<Blob>, dying: set<Blob>, pend: multiset<Blob>, h: Blob)
    requires Inv(d, disk, order, dying, pend) && h in dying
    ensures Inv(d - {h}, disk, order, dying - {h}, pend)
  {
    var e := d - {h};
    forall c | c in e && c != ZERO && c !in disk
      ensures e[c].parents >= Refs(order, e, c) + RootRefs(e, c) + pend[c]
    {
      RefsSame(order, d, e, c);
    }
    assert Ordered(e, disk, order);
    assert Anchored(e, disk, order);
  }

  // ----- the flush list

  function SetPrev(d: Dirties, h: Blob, p: Blob): Dirties
    requires h in d
  {
    d[h := d[h].(prev := p)]
  }

  function SetNext(d: Dirties, h: Blob, n: Blob): Dirties
    requires h in d
  {
    d[h := d[h].(next := n)]
  }

  /** Only links differ. */
  ghost predicate Relinked(d: Dirties, e: Dirties) {
    SameRefs(d, e) && forall h :: h in d ==> e[h].parents == d[h].parents
  }

  ghost predicate Listed(d: Dirties, oldest: Blob, newest: Blob, order: seq<Blob>) {
    Distinct(order) && ZERO !in order && ZERO in d && Chained(d, oldest, newest, order)
  }

  lemma Relist(d: Dirties, oldest: Blob, newest: Blob, order: seq<Blob>, w: seq<Blob>, e: Dirties, oldest': Blob,
      newest': Blob, i: nat)
    requires Listed(d, oldest, newest, order) && i < |order| && ZERO in e && w == Without(order, i)
    requires oldest' == At(w, 0) && (|w| > 0 ==> newest' == w[|w| - 1])
    requires forall j :: 0 <= j < |w| ==> LinkedAt(e, w, j)
    ensures Listed(e, oldest', newest', w)
  {
    WithoutElements(order, i);
  }

  lemma UnlinkFirst(d: Dirties, oldest: Blob, newest: Blob, order: seq<Blob>)
    requires Listed(d, oldest, newest, order) && |order| > 0
    ensures oldest in d && d[oldest].next in d
    ensures var e := SetPrev(d, d[oldest].next, ZERO);
            Relinked(d, e) && Listed(e, d[oldest].next, newest, Without(order, 0))
  {
    assert LinkedAt(d, order, 0);
    assert |order| > 1 ==> LinkedAt(d, order, 1);
    var n, w := d[order[0]].next, Without(order, 0);
    var e := SetPrev(d, n, ZERO);
    forall j | 0 <= j < |w|
      ensures LinkedAt(e, w, j)
    {
      assert LinkedAt(d, order, j + 1);
      WithoutAt(order, 0, j);
      assert j > 0 ==> w[j] != order[1];
    }
    Relist(d, oldest, newest, order, w, e, n, newest, 0);
  }

  lemma UnlinkLast(d: Dirties, oldest: Blob, newest: Blob, order: seq<Blob>)
    requires Listed(d, oldest, newest, order) && |order| > 1
    ensures newest in d && newest != oldest && d[newest].prev in d
    ensures var e := SetNext(d, d[newest].prev, ZERO);
            Relinked(d, e) && Listed(e, oldest, d[newest].prev, Without(order, |order| - 1))
  {
    var i := |order| - 1;
    assert LinkedAt(d, order, i) && LinkedAt(d, order, i - 1);
    var p, w := d[order[i]].prev, Without(order, i);
    assert p == order[i - 1];
    var e := SetNext(d, p, ZERO);
    forall j | 0 <= j < |w|
      ensures LinkedAt(e, w, j)
    {
      assert LinkedAt(d, order, j);
      assert w[j] == order[j];
      assert j < i - 1 ==> w[j] != order[i - 1];
    }
    Relist(d, oldest, newest, order, w, e, oldest, p, i);
  }

  lemma UnlinkMiddle(d: Dirties, oldest: Blob, newest: Blob, order: seq<Blob>, i: nat)
    requires Listed(d, oldest, newest, order) && 0 < i < |order| - 1
    ensures order[i] in d && order[i] != oldest && order[i] != newest
    ensures d[order[i]].prev in d && d[order[i]].next in SetNext(d, d[order[i]].prev, d[order[i]].next)
    ensures var x := d[order[i]];
            var e := SetPrev(SetNext(d, x.prev, x.next), x.next, x.prev);
            Relinked(d, e) && Listed(e, oldest, newest, Without(order, i))
  {
    Neighbours(d, oldest, newest, order, i);
    var p, n := order[i - 1], order[i + 1];
    var e := SetPrev(SetNext(d, p, n), n, p);
    MiddleLinked(d, order, i, e);
    Relist(d, oldest, newest, order, Without(order, i), e, oldest, newest, i);
  }

  lemma MiddleLinked(d: Dirties, order: seq<Blob>, i: nat, e: Dirties)
    requires Distinct(order) && 0 < i < |order| - 1 && order[i - 1] in d && order[i + 1] in d
    requires forall j :: 0 <= j < |order| ==> LinkedAt(d, order, j)
    requires order[i - 1] != order[i + 1]
    requires e == SetPrev(SetNext(d, order[i - 1], order[i + 1]), order[i + 1], order[i - 1])
    ensures forall j :: 0 <= j < |Without(order, i)| ==> LinkedAt(e, Without(order, i), j)
  {
    forall j | 0 <= j < |Without(order, i)|
      ensures LinkedAt(e, Without(order, i), j)
    {
      var k := if j < i then j else j + 1;
      assert LinkedAt(d, order, k);
      MiddleLinkedAt(d, order, i, e, j, k);
    }
  }

  /** A node in the middle of the list lies between two others. */
  lemma {:induction false} Neighbours(d: Dirties, oldest: Blob, newest: Blob, order: seq<Blob>, i: nat)
    requires Listed(d, oldest, newest, order) && 0 < i < |order| - 1
    ensures order[i] in d && order[i] != oldest && order[i] != newest
    ensures d[order[i]].prev == order[i - 1] && d[order[i]].next == order[i + 1] && order[i - 1] != order[i + 1]
    ensures order[i - 1] in d && order[i + 1] in d
    ensures oldest == At(Without(order, i), 0) && newest == Without(order, i)[|order| - 2]
  {
    assert LinkedAt(d, order, i) && LinkedAt(d, order, i - 1) && LinkedAt(d, order, i + 1);
    WithoutEnds(order, i);
  }

  lemma {:induction false} WithoutEnds(order: seq<Blob>, i: nat)
    requires 0 < i < |order| - 1
    ensures |Without(order, i)| == |order| - 1
    ensures At(Without(order, i), 0) == order[0] && Without(order, i)[|order| - 2] == order[|order| - 1]
  {
  }

  lemma MiddleLinkedAt(d: Dirties, order: seq<Blob>, i: nat, e: Dirties, j: nat, k: nat)
    requires Distinct(order) && 0 < i < |order| - 1 && j < |order| - 1 && k == (if j < i then j else j + 1)
    requires LinkedAt(d, order, k) && order[i - 1] in d && order[i + 1] in d && order[i - 1] != order[i + 1]
    requires e == SetPrev(SetNext(d, order[i - 1], order[i + 1]), order[i + 1], order[i - 1])
    ensures LinkedAt(e, Without(order, i), j)
  {
    WithoutAt(order, i, j);
    assert k != i - 1 ==> order[k] != order[i - 1];
    assert k != i + 1 ==> order[k] != order[i + 1];
  }

  lemma WithoutAt(order: seq<Blob>, i: nat, j: nat)
    requires i < |order| && j < |order| - 1
    ensures var w := Without(order, i);
            && w[j] == order[if j < i then j else j + 1]
            && At(w, j + 1) == At(order, if j + 1 < i then j + 1 else j + 2)
            && At(w, j - 1) == At(order, if j - 1 < i then j - 1 else j)
  {
    var w := Without(order, i);
    assert |w| == |order| - 1;
    assert forall k :: 0 <= k < |w| ==> w[k] == order[if k < i then k else k + 1];
  }

  // ----- single changes of the references

  /** One reference fewer is pending, and the count goes down with it unless it is zero already. */
  lemma Uncount(d: Dirties, disk: Store, order: seq<Blob>, dying: set<Blob>, pend: multiset<Blob>, c: Blob)
    requires Inv(d, disk, order, dying, pend) && c in d && c in pend
    ensures var p := d[c].parents;
            Inv(d[c := d[c].(parents := if p > 0 then p - 1 else 0)], disk, order, dying, pend - multiset{c})
  {
    var p := d[c].parents;
    var e, q := d[c := d[c].(parents := if p > 0 then p - 1 else 0)], pend - multiset{c};
    UncountGap(d, disk, order, pend, c, e, q);
    Recount(d, e, disk, order, dying, pend, q);
  }

  lemma UncountGap(d: Dirties, disk: Store, order: seq<Blob>, pend: multiset<Blob>, c: Blob, e: Dirties,
      q: multiset<Blob>)
    requires Counted(d, disk, order, pend) && c in d && c in pend && q == pend - multiset{c}
    requires e == d[c := d[c].(parents := if d[c].parents > 0 then d[c].parents - 1 else 0)]
    ensures SameRefs(d, e)
    ensures forall x :: x in d && x != ZERO && x !in disk ==> e[x].parents + pend[x] >= d[x].parents + q[x]
  {
    forall x | x in d && x != ZERO && x !in disk
      ensures e[x].parents + pend[x] >= d[x].parents + q[x]
    {
      assert q[x] == if x == c then pend[x] - 1 else pend[x];
    }
  }

  /** External references of a node being torn down no longer matter. */
  lemma DropFromDying(d: Dirties, disk: Store, order: seq<Blob>, dying: set<Blob>, pend: multiset<Blob>, h: Blob,
      c: Blob)
    requires Inv(d, disk, order, dying, pend) && h in dying && h in d && c in d[h].children
    ensures Inv(d[h := d[h].(children := Less(d[h].children, c))], disk, order, dying, pend)
  {
    var e := d[h := d[h].(children := Less(d[h].children, c))];
    forall x | x in e && x != ZERO && x !in disk
      ensures e[x].parents >= Refs(order, e, x) + RootRefs(e, x) + pend[x]
    {
      RefsSame(order, d, e, x);
    }
    assert Ordered(e, disk, order);
    assert Anchored(e, disk, order);
    assert Graded(e, disk);
  }

  /** One reference fewer. */
  function Less(children: map<Blob, nat>, c: Blob): map<Blob, nat>
    requires c in children
  {
    if children[c] <= 1 then children - {c} else children[c := children[c] - 1]
  }

  /** A reference taken from the meta root is pending until the child has been told. */
  lemma DropFromRoot(d: Dirties, disk: Store, order: seq<Blob>, dying: set<Blob>, pend: multiset<Blob>, c: Blob)
    requires Inv(d, disk, order, dying, pend) && ZERO in d && c in d[ZERO].children
    ensures Inv(d[ZERO := d[ZERO].(children := Less(d[ZERO].children, c))], disk, order, dying, pend + multiset{c})
  {
    var e := d[ZERO := d[ZERO].(children := Less(d[ZERO].children, c))];
    forall x | x in e && x != ZERO && x !in disk
      ensures e[x].parents >= Refs(order, e, x) + RootRefs(e, x) + (pend + multiset{c})[x]
    {
      RefsSame(order, d, e, x);
      assert RootRefs(d, x) == RootRefs(e, x) + multiset{c}[x];
    }
    assert Ordered(e, disk, order);
    assert Anchored(e, disk, order);
    assert Graded(e, disk);
  }

  /** The reverse of DropFromRoot: a reference already counted goes to the meta root. */
  lemma HoldFromRoot(d: Dirties, disk: Store, order: seq<Blob>, c: Blob)
    requires Inv(d, disk, order, {}, multiset{c}) && c in order
    ensures ZERO in d
    ensures Inv(d[ZERO := d[ZERO].(children := More(d[ZERO].children, c))], disk, order, {}, multiset{})
  {
    var e := d[ZERO := d[ZERO].(children := More(d[ZERO].children, c))];
    HoldCounted(d, e, disk, order, c);
    OneShape(d, e, disk, order, ZERO);
  }

  lemma HoldCounted(d: Dirties, e: Dirties, disk: Store, order: seq<Blob>, c: Blob)
    requires Counted(d, disk, order, multiset{c}) && ZERO in d && ZERO !in order
    requires e == d[ZERO := d[ZERO].(children := More(d[ZERO].children, c))]
    ensures Counted(e, disk, order, multiset{})
  {
    forall x | x in e && x != ZERO && x !in disk
      ensures e[x].parents >= Refs(order, e, x) + RootRefs(e, x)
    {
      RefsSame(order, d, e, x);
      assert RootRefs(e, x) == RootRefs(d, x) + multiset{c}[x];
    }
  }

  /** Only the external references of one node differ, and those it gained are listed. */
  lemma OneShape(d: Dirties, e: Dirties, disk: Store, order: seq<Blob>, p: Blob)
    requires Ordered(d, disk, order) && Anchored(d, disk, order) && Graded(d, disk) && p in d
    requires forall h :: h in e <==> h in d
    requires forall h :: h in d ==> e[h].node == d[h].node && (h != p ==> e[h] == d[h])
    requires forall c :: c in e[p].children ==> e[p].children[c] > 0
    requires forall c :: c in e[p].children && c !in d[p].children ==>
        c in order && (p == ZERO || Height(c) < Height(p))
    ensures Ordered(e, disk, order) && Anchored(e, disk, order) && Graded(e, disk)
  {
  }

  function More(children: map<Blob, nat>, c: Blob): map<Blob, nat> {
    children[c := if c in children then children[c] + 1 else 1]
  }

  /** A reference already counted goes to a listed node, which must lie above the child. */
  lemma HoldFromNode(d: Dirties, disk: Store, order: seq<Blob>, p: Blob, c: Blob)
    requires Inv(d, disk, order, {}, multiset{c}) && c in order && p in order && p in d
    requires c !in d[p].children && Height(c) < Height(p)
    ensures Inv(d[p := d[p].(children := More(d[p].children, c))], disk, order, {}, multiset{})
  {
    var e := d[p := d[p].(children := More(d[p].children, c))];
    forall x | x in e && x != ZERO && x !in disk
      ensures e[x].parents >= Refs(order, e, x) + RootRefs(e, x)
    {
      HoldCounts(d, e, order, p, c, x);
    }
    OneShape(d, e, disk, order, p);
  }

  lemma HoldCounts(d: Dirties, e: Dirties, order: seq<Blob>, p: Blob, c: Blob, x: Blob)
    requires Distinct(order) && p in order && p in d && c !in d[p].children
    requires e == d[p := d[p].(children := More(d[p].children, c))]
    ensures Refs(order, e, x) == Refs(order, d, x) + multiset{c}[x]
  {
    var i :| 0 <= i < |order| && order[i] == p;
    RefsWithout(order, i, d, x);
    RefsWithout(order, i, e, x);
    WithoutElements(order, i);
    RefsSame(Without(order, i), d, e, x);
    assert Occ(e[p], x) == Occ(d[p], x) + multiset{c}[x];
  }

  // ----- a new node

  function Fresh(item: Item, prev: Blob): Cached {
    Cached(item, 0, map[], prev, ZERO)
  }

  /** Nothing in the cache refers to a node that is neither listed nor on disk. */
  lemma UnknownUnreferenced(d: Dirties, disk: Store, order: seq<Blob>, pend: multiset<Blob>, h: Blob)
    requires Inv(d, disk, order, {}, pend) && h !in d && h !in disk
    ensures Refs(order, d, h) + RootRefs(d, h) == 0
  {
    forall x | x in order
      ensures OccAt(d, x, h) == 0
    {
      var i :| 0 <= i < |order| && order[i] == x;
      assert forall c :: c in order[..i] ==> c in order;
      KidsOcc(d[x], h);
    }
    RefsZero(order, d, h);
  }

  lemma {:induction false} RefsZero(order: seq<Blob>, d: Dirties, c: Blob)
    requires forall h :: h in order ==> OccAt(d, h, c) == 0
    ensures Refs(order, d, c) == 0
  {
    if |order| > 0 {
      RefsZero(order[..|order| - 1], d, c);
    }
  }

  ghost predicate Newcomer(d: Dirties, disk: Store, order: seq<Blob>, h: Blob, item: Item) {
    h !in d && h == Keccak(item) && forall c :: c in HashRefs(item) ==> c in disk || c in order
  }

  lemma AdmitCounts(d: Dirties, disk: Store, order: seq<Blob>, h: Blob, item: Item, prev: Blob, c: Blob)
    requires Inv(d, disk, order, {}, multiset(HashRefs(item))) && Newcomer(d, disk, order, h, item)
    requires (c in d || c == h) && c != ZERO && c !in disk
    ensures var e := d[h := Fresh(item, prev)];
            e[c].parents >= Refs(order + [h], e, c) + RootRefs(e, c)
  {
    var e := d[h := Fresh(item, prev)];
    RefsSplit(order, [h], e, c);
    RefsOne(h, e, c);
    RefsSame(order, d, e, c);
    KidsOcc(e[h], c);
    if c == h {
      UnknownUnreferenced(d, disk, order, multiset(HashRefs(item)), h);
      if h in HashRefs(item) {
        RefsLower(item, h);
      }
    }
  }

  /** A node whose children are known joins at the end of the list. */
  lemma Admit(d: Dirties, disk: Store, order: seq<Blob>, h: Blob, item: Item, prev: Blob)
    requires Inv(d, disk, order, {}, multiset(HashRefs(item))) && Newcomer(d, disk, order, h, item)
    ensures Inv(d[h := Fresh(item, prev)], disk, order + [h], {}, multiset{})
  {
    AdmitCounted(d, disk, order, h, item, prev);
    AdmitOrdered(d, disk, order, h, item, prev);
    AdmitAnchored(d, disk, order, h, item, prev);
    assert Distinct(order + [h]);
  }

  lemma AdmitCounted(d: Dirties, disk: Store, order: seq<Blob>, h: Blob, item: Item, prev: Blob)
    requires Inv(d, disk, order, {}, multiset(HashRefs(item))) && Newcomer(d, disk, order, h, item)
    ensures Counted(d[h := Fresh(item, prev)], disk, order + [h], multiset{})
  {
    var e, o := d[h := Fresh(item, prev)], order + [h];
    forall c | c in e && c != ZERO && c !in disk
      ensures e[c].parents >= Refs(o, e, c) + RootRefs(e, c)
    {
      AdmitCounts(d, disk, order, h, item, prev, c);
    }
  }

  lemma AdmitAnchored(d: Dirties, disk: Store, order: seq<Blob>, h: Blob, item: Item, prev: Blob)
    requires Inv(d, disk, order, {}, multiset(HashRefs(item))) && Newcomer(d, disk, order, h, item)
    ensures Anchored(d[h := Fresh(item, prev)], disk, order + [h]) && Graded(d[h := Fresh(item, prev)], disk)
  {
  }

  lemma AdmitOrdered(d: Dirties, disk: Store, order: seq<Blob>, h: Blob, item: Item, prev: Blob)
    requires Ordered(d, disk, order) && h !in order && Newcomer(d, disk, order, h, item)
    ensures Ordered(d[h := Fresh(item, prev)], disk, order + [h])
  {
    var e, o := d[h := Fresh(item, prev)], order + [h];
    forall i, c | 0 <= i < |o| && o[i] in e && c in HashRefs(e[o[i]].node)
      ensures c in disk || c in o[..i]
    {
      assert i < |order| ==> o[..i] == order[..i] && o[i] == order[i];
      assert i == |order| ==> o[..i] == order;
    }
  }

  lemma HeadListed(order: seq<Blob>)
    ensures |order| > 0 ==> At(order, 0) in order
  {
  }

  lemma AppendFirst(d: Dirties, oldest: Blob, newest: Blob, order: seq<Blob>, h: Blob, item: Item, prev: Blob)
    requires Listed(d, oldest, newest, order) && h !in d && oldest == ZERO
    ensures order == [] && Listed(d[h := Fresh(item, prev)], h, h, [h])
  {
    HeadListed(order);
  }

  lemma AppendListed(d: Dirties, oldest: Blob, newest: Blob, order: seq<Blob>, h: Blob, item: Item)
    requires Listed(d, oldest, newest, order) && h !in d && oldest != ZERO
    ensures var e := d[h := Fresh(item, newest)];
            newest in e && Listed(SetNext(e, newest, h), oldest, h, order + [h])
  {
    assert |order| > 0;
    assert LinkedAt(d, order, |order| - 1);
    var e := SetNext(d[h := Fresh(item, newest)], newest, h);
    var o := order + [h];
    forall j | 0 <= j < |o|
      ensures LinkedAt(e, o, j)
    {
      if j < |order| {
        assert LinkedAt(d, order, j);
        assert o[j] == order[j] && (j < |order| - 1 ==> o[j] != newest);
      }
    }
    forall j | 0 <= j < |order|
      ensures order[j] != h
    {
      assert LinkedAt(d, order, j);
    }
  }

  // ----- writing to disk

  datatype Entry = Entry(key: Blob, value: Item)

  function Written(disk: Store, batch: seq<Entry>): Store {
    if |batch| == 0 then disk
    else Written(disk, batch[..|batch| - 1])[batch[|batch| - 1].key := batch[|batch| - 1].value]
  }

  ghost predicate InBatch(batch: seq<Entry>, h: Blob) {
    exists i :: 0 <= i < |batch| && batch[i].key == h
  }

  /** A batch may be written as a whole: digests are right and references lead to it or to the disk. */
  ghost predicate Writable(disk: Store, batch: seq<Entry>) {
    && (forall i :: 0 <= i < |batch| ==> batch[i].key == Keccak(batch[i].value))
    && (forall i, c :: 0 <= i < |batch| && c in HashRefs(batch[i].value) ==> c in disk || InBatch(batch, c))
  }

  lemma {:induction false} WrittenKeys(disk: Store, batch: seq<Entry>)
    requires StoreOk(disk) && forall i :: 0 <= i < |batch| ==> batch[i].key == Keccak(batch[i].value)
    ensures forall h :: h in Written(disk, batch) <==> h in disk || InBatch(batch, h)
    ensures StoreOk(Written(disk, batch))
  {
    if |batch| > 0 {
      var f := batch[..|batch| - 1];
      WrittenKeys(disk, f);
      forall h
        ensures InBatch(batch, h) <==> InBatch(f, h) || h == batch[|batch| - 1].key
      {
        if InBatch(batch, h) {
          var i :| 0 <= i < |batch| && batch[i].key == h;
          assert i < |f| ==> f[i].key == h;
        }
        if InBatch(f, h) {
          var i :| 0 <= i < |f| && f[i].key == h;
          assert batch[i].key == h;
        }
      }
    }
  }

  lemma {:induction false} WrittenFrom(disk: Store, batch: seq<Entry>, h: Blob)
    requires StoreOk(disk) && h in Written(disk, batch)
    ensures (h in disk && Written(disk, batch)[h] == disk[h])
         || (exists i :: 0 <= i < |batch| && batch[i].key == h && batch[i].value == Written(disk, batch)[h])
  {
    if |batch| > 0 && batch[|batch| - 1].key != h {
      var f := batch[..|batch| - 1];
      WrittenFrom(disk, f, h);
      if !(h in disk && Written(disk, f)[h] == disk[h]) {
        var i :| 0 <= i < |f| && f[i].key == h && f[i].value == Written(disk, f)[h];
        assert batch[i].key == h;
      }
    }
  }

  lemma WrittenClosed(disk: Store, batch: seq<Entry>)
    requires StoreOk(disk) && Closed(disk) && Writable(disk, batch)
    ensures StoreOk(Written(disk, batch)) && Closed(Written(disk, batch))
  {
    var w := Written(disk, batch);
    WrittenKeys(disk, batch);
    forall h, c | h in w && c in HashRefs(w[h])
      ensures c in w
    {
      WrittenFrom(disk, batch, h);
    }
  }

  lemma Persist(d: Dirties, disk: Store, batch: seq<Entry>, order: seq<Blob>)
    requires Inv(d, disk, order, {}, multiset{}) && Writable(disk, batch)
    ensures Inv(d, Written(disk, batch), order, {}, multiset{})
  {
    WrittenKeys(disk, batch);
    WrittenClosed(disk, batch);
  }

  // ----- what can be read

  function View(d: Dirties, disk: Store): Store {
    map h | h in d.Keys + disk.Keys && h != ZERO :: if h in d then d[h].node else disk[h]
  }

  /** Everything reachable from a live root, a dirty node or the disk can be read. */
  lemma ViewClosed(d: Dirties, disk: Store, order: seq<Blob>)
    requires Inv(d, disk, order, {}, multiset{})
    ensures StoreOk(View(d, disk)) && Closed(View(d, disk))
    ensures ZERO in d && forall r :: r in d[ZERO].children ==> r in View(d, disk)
  {
    var v := View(d, disk);
    assert ZERO !in disk;
    forall h, c | h in v && c in HashRefs(v[h])
      ensures c in v
    {
      if h in d {
        var i :| 0 <= i < |order| && order[i] == h;
        assert forall x :: x in order[..i] ==> x in order;
      }
    }
  }

  // ----- whole states

  /** The database as a value; order, dying and pend are what its invariant is about. */
  datatype Cache = Cache(disk: Store, dirties: Dirties, oldest: Blob, newest: Blob)

  /** Listed and Inv, quantified so that only proofs that mention Opens have to look inside. */
  ghost predicate Kept(c: Cache, order: seq<Blob>, dying: set<Blob>, pend: multiset<Blob>) {
    forall key :: Opens(key) ==>
        Listed(c.dirties, c.oldest, c.newest, order) && Inv(c.dirties, c.disk, order, dying, pend)
  }

  ghost predicate Strung(c: Cache, order: seq<Blob>) {
    forall key :: Opens(key) ==> Listed(c.dirties, c.oldest, c.newest, order)
  }

  lemma StrungOf(c: Cache, order: seq<Blob>)
    requires Listed(c.dirties, c.oldest, c.newest, order)
    ensures Strung(c, order)
  {
  }

  /** Every dirty node but the meta root is in the flush list or being torn down. */
  lemma KeptKeys(c: Cache, order: seq<Blob>, dying: set<Blob>, pend: multiset<Blob>)
    requires Kept(c, order, dying, pend)
    ensures ZERO in c.dirties && ZERO !in dying && dying <= c.dirties.Keys
    ensures forall h :: h in c.dirties ==> h == ZERO || h in order || h in dying
  {
    assert Opens(0);
  }

  lemma KeptStrung(c: Cache, order: seq<Blob>, dying: set<Blob>, pend: multiset<Blob>)
    requires Kept(c, order, dying, pend)
    ensures Strung(c, order)
  {
  }

  lemma KeptListed(c: Cache, order: seq<Blob>, dying: set<Blob>, pend: multiset<Blob>)
    requires Kept(c, order, dying, pend)
    ensures Listed(c.dirties, c.oldest, c.newest, order)
  {
    assert Opens(0);
  }

  /** d with the counts of some children raised, once for each occurrence. */
  ghost predicate Credited(d: Dirties, e: Dirties, refs: seq<Blob>) {
    && (forall h :: h in d <==> h in e)
    && (forall h :: h in d ==> e[h] == d[h].(parents := d[h].parents + multiset(refs)[h]))
  }

  function Credit(e: Dirties, c: Blob): Dirties {
    if c in e then e[c := e[c].(parents := e[c].parents + 1)] else e
  }

  lemma CreditOne(d: Dirties, e: Dirties, refs: seq<Blob>, i: nat)
    requires i < |refs| && Credited(d, e, refs[..i])
    ensures Credited(d, Credit(e, refs[i]), refs[..i + 1])
  {
    assert refs[..i + 1] == refs[..i] + [refs[i]];
  }

  lemma CreditedKeeps(c: Cache, e: Dirties, order: seq<Blob>, refs: seq<Blob>)
    requires Kept(c, order, {}, multiset{}) && Credited(c.dirties, e, refs)
    ensures Kept(c.(dirties := e), order, {}, multiset(refs))
  {
    assert Opens(0);
    Recount(c.dirties, e, c.disk, order, {}, multiset{}, multiset(refs));
    forall j | 0 <= j < |order|
      ensures LinkedAt(e, order, j)
    {
      assert LinkedAt(c.dirties, order, j);
    }
  }

  /** The end of the flush list moves to a new node. */
  function Appended(c: Cache, h: Blob, item: Item): Cache
    requires c.oldest == ZERO || c.newest in c.dirties
  {
    var d := c.dirties[h := Fresh(item, c.newest)];
    if c.oldest == ZERO then c.(dirties := d, oldest := h, newest := h)
    else c.(dirties := SetNext(d, c.newest, h), newest := h)
  }

  lemma NewestKnown(c: Cache, order: seq<Blob>)
    requires Listed(c.dirties, c.oldest, c.newest, order)
    ensures c.oldest == ZERO || c.newest in c.dirties
  {
    if |order| > 0 {
      assert LinkedAt(c.dirties, order, |order| - 1);
    }
  }

  lemma {:induction false} AppendKeeps(c: Cache, order: seq<Blob>, h: Blob, item: Item)
    requires Kept(c, order, {}, multiset(HashRefs(item))) && Newcomer(c.dirties, c.disk, order, h, item)
    ensures c.oldest == ZERO || c.newest in c.dirties
    ensures Kept(Appended(c, h, item), order + [h], {}, multiset{})
  {
    assert Opens(0);
    NewestKnown(c, order);
    var d := c.dirties[h := Fresh(item, c.newest)];
    Admit(c.dirties, c.disk, order, h, item, c.newest);
    if c.oldest == ZERO {
      AppendFirst(c.dirties, c.oldest, c.newest, order, h, item, c.newest);
      assert order + [h] == [h];
    } else {
      AppendListed(c.dirties, c.oldest, c.newest, order, h, item);
      Relink(d, SetNext(d, c.newest, h), c.disk, order + [h]);
    }
  }

  lemma Relink(d: Dirties, e: Dirties, disk: Store, order: seq<Blob>)
    requires Inv(d, disk, order, {}, multiset{}) && Relinked(d, e)
    ensures Inv(e, disk, order, {}, multiset{})
  {
    Recount(d, e, disk, order, {}, multiset{}, multiset{});
  }

  /** Caching a new node whose children can be read keeps everything and adds just that node. */
  lemma InsertKeeps(c: Cache, order: seq<Blob>, e: Dirties, h: Blob, item: Item)
    requires Kept(c, order, {}, multiset{}) && Credited(c.dirties, e, HashRefs(item)) && h == Keccak(item)
        && h !in c.dirties
    requires forall x :: x in HashRefs(item) ==> x in View(c.dirties, c.disk)
    ensures c.oldest == ZERO || c.newest in e
    ensures Kept(Appended(c.(dirties := e), h, item), order + [h], {}, multiset{})
  {
    assert Opens(0);
    CreditedKeeps(c, e, order, HashRefs(item));
    AppendKeeps(c.(dirties := e), order, h, item);
  }

  lemma AppendView(c: Cache, h: Blob, item: Item)
    requires ZERO in c.dirties && h != ZERO && h !in c.dirties && (c.oldest == ZERO || c.newest in c.dirties)
    ensures var c' := Appended(c, h, item);
            && View(c'.dirties, c'.disk) == View(c.dirties, c.disk)[h := item]
            && ZERO in c'.dirties && c'.dirties[ZERO].children == c.dirties[ZERO].children
  {
    var d := c.dirties[h := Fresh(item, c.newest)];
    assert View(d, c.disk) == View(c.dirties, c.disk)[h := item];
    if c.oldest != ZERO {
      SameRefsView(d, SetNext(d, c.newest, h), c.disk);
    }
  }

  lemma SameRefsView(d: Dirties, e: Dirties, disk: Store)
    requires SameRefs(d, e)
    ensures View(d, disk) == View(e, disk)
  {
    assert d.Keys == e.Keys;
  }

  lemma InsertView(c: Cache, e: Dirties, h: Blob, item: Item)
    requires ZERO in e && h != ZERO && h !in e && Credited(c.dirties, e, HashRefs(item))
        && (c.oldest == ZERO || c.newest in e)
    ensures var c' := Appended(c.(dirties := e), h, item);
            && View(c'.dirties, c'.disk) == View(c.dirties, c.disk)[h := item]
            && ZERO in c'.dirties && c'.dirties[ZERO].children == c.dirties[ZERO].children
  {
    SameRefsView(c.dirties, e, c.disk);
    AppendView(c.(dirties := e), h, item);
  }

  lemma KnownView(c: Cache, order: seq<Blob>, h: Blob, item: Item)
    requires Kept(c, order, {}, multiset{}) && h in c.dirties && h == Keccak(item)
    ensures View(c.dirties, c.disk) == View(c.dirties, c.disk)[h := item]
  {
    assert Opens(0);
  }

  /** What an insertion amounts to: e is the cache after the children have been credited. */
  ghost predicate Inserts(c: Cache, order: seq<Blob>, c': Cache, h: Blob, item: Item) {
    && Kept(c', order + [h], {}, multiset{}) && c'.disk == c.disk
    && View(c'.dirties, c'.disk) == View(c.dirties, c.disk)[h := item]
    && ZERO in c.dirties && ZERO in c'.dirties && c'.dirties[ZERO].children == c.dirties[ZERO].children
  }

  /** A new node with no counts and no external children; the counts of its children are up by its references. */
  ghost predicate Joined(d: Dirties, e: Dirties, h: Blob, item: Item) {
    && e.Keys == d.Keys + {h} && e[h].node == item && e[h].parents == 0 && e[h].children == map[]
    && forall x :: x in d ==>
         && e[x].node == d[x].node && e[x].children == d[x].children
         && e[x].parents == d[x].parents + multiset(HashRefs(item))[x]
  }

  lemma {:induction false} AppendJoined(c: Cache, e: Dirties, h: Blob, item: Item)
    requires Credited(c.dirties, e, HashRefs(item)) && h !in c.dirties && (c.oldest == ZERO || c.newest in e)
    ensures Joined(c.dirties, Appended(c.(dirties := e), h, item).dirties, h, item)
  {
  }

  lemma {:induction false} InsertDone(c: Cache, order: seq<Blob>, e: Dirties, h: Blob, item: Item)
    requires Kept(c, order, {}, multiset{}) && Credited(c.dirties, e, HashRefs(item)) && h == Keccak(item)
        && h !in c.dirties
    requires forall x :: x in HashRefs(item) ==> x in View(c.dirties, c.disk)
    ensures c.oldest == ZERO || c.newest in e
    ensures Inserts(c, order, Appended(c.(dirties := e), h, item), h, item)
    ensures Joined(c.dirties, Appended(c.(dirties := e), h, item).dirties, h, item)
  {
    assert Opens(0);
    InsertKeeps(c, order, e, h, item);
    InsertView(c, e, h, item);
    AppendJoined(c, e, h, item);
  }

  // ----- references from outside

  /** Nodes that are left are as they were, but for their links. */
  ghost predicate Remains(d: Dirties, e: Dirties) {
    forall x :: x in e ==> && x in d && e[x].node == d[x].node && e[x].parents == d[x].parents
                           && e[x].children == d[x].children
  }

  ghost predicate SameLinks(d: Dirties, e: Dirties) {
    forall h :: h in d ==> h in e && e[h].prev == d[h].prev && e[h].next == d[h].next
  }

  lemma ListedSame(d: Dirties, e: Dirties, oldest: Blob, newest: Blob, order: seq<Blob>)
    requires Listed(d, oldest, newest, order) && SameLinks(d, e)
    ensures Listed(e, oldest, newest, order)
  {
    forall j | 0 <= j < |order|
      ensures LinkedAt(e, order, j)
    {
      assert LinkedAt(d, order, j);
    }
  }

  function Referenced(d: Dirties, child: Blob, parent: Blob): Dirties
    requires child in d && parent in d
  {
    var e := d[child := d[child].(parents := d[child].parents + 1)];
    e[parent := e[parent].(children := More(e[parent].children, child))]
  }

  lemma HoldFrom(e: Dirties, disk: Store, order: seq<Blob>, parent: Blob, child: Blob)
    requires Inv(e, disk, order, {}, multiset{child}) && child in e && child != ZERO && parent in e
    requires parent != ZERO ==> child !in e[parent].children && Height(child) < Height(parent)
    ensures Inv(e[parent := e[parent].(children := More(e[parent].children, child))], disk, order, {}, multiset{})
  {
    if parent == ZERO {
      HoldFromRoot(e, disk, order, child);
    } else {
      HoldFromNode(e, disk, order, parent, child);
    }
  }

  lemma ReferInv(d: Dirties, disk: Store, order: seq<Blob>, child: Blob, parent: Blob)
    requires Inv(d, disk, order, {}, multiset{}) && child in d && child != ZERO && parent in d
    requires parent != ZERO ==> child !in d[parent].children && Height(child) < Height(parent)
    ensures Inv(Referenced(d, child, parent), disk, order, {}, multiset{})
  {
    var e := d[child := d[child].(parents := d[child].parents + 1)];
    OneMoreCounted(d, e, disk, order, child);
    HoldFrom(e, disk, order, parent, child);
  }

  lemma OneMoreCounted(d: Dirties, e: Dirties, disk: Store, order: seq<Blob>, child: Blob)
    requires Inv(d, disk, order, {}, multiset{}) && child in d
    requires e == d[child := d[child].(parents := d[child].parents + 1)]
    ensures Inv(e, disk, order, {}, multiset{child})
  {
    Recount(d, e, disk, order, {}, multiset{}, multiset{child});
  }

  lemma ReferKeeps(c: Cache, order: seq<Blob>, child: Blob, parent: Blob)
    requires Kept(c, order, {}, multiset{}) && child in c.dirties && child != ZERO && parent in c.dirties
    requires parent != ZERO ==> child !in c.dirties[parent].children && Height(child) < Height(parent)
    ensures Kept(c.(dirties := Referenced(c.dirties, child, parent)), order, {}, multiset{})
  {
    assert Opens(0);
    var e := Referenced(c.dirties, child, parent);
    ReferInv(c.dirties, c.disk, order, child, parent);
    ReferListed(c.dirties, c.oldest, c.newest, order, child, parent);
    assert Listed(e, c.oldest, c.newest, order) && Inv(e, c.disk, order, {}, multiset{});
  }

  lemma ReferListed(d: Dirties, oldest: Blob, newest: Blob, order: seq<Blob>, child: Blob, parent: Blob)
    requires Listed(d, oldest, newest, order) && child in d && parent in d
    ensures Listed(Referenced(d, child, parent), oldest, newest, order)
  {
    ListedSame(d, Referenced(d, child, parent), oldest, newest, order);
  }

  lemma ReferView(d: Dirties, disk: Store, child: Blob, parent: Blob)
    requires child in d && parent in d && ZERO in d && child != ZERO
    ensures View(Referenced(d, child, parent), disk) == View(d, disk)
    ensures Referenced(d, child, parent)[ZERO].children == if parent == ZERO then More(d[ZERO].children, child)
        else d[ZERO].children
  {
    var e := Referenced(d, child, parent);
    assert e.Keys == d.Keys;
  }

  /** What a new reference amounts to. */
  ghost predicate Refers(c: Cache, order: seq<Blob>, e: Dirties, child: Blob, parent: Blob) {
    && Kept(c.(dirties := e), order, {}, multiset{})
    && View(e, c.disk) == View(c.dirties, c.disk)
    && ZERO in c.dirties && ZERO in e
    && e[ZERO].children == if parent == ZERO then More(c.dirties[ZERO].children, child) else c.dirties[ZERO].children
  }

  /** One more external reference, counted at the child and kept at the parent. */
  ghost predicate Referred(d: Dirties, e: Dirties, child: Blob, parent: Blob) {
    && e.Keys == d.Keys
    && forall x :: x in d ==>
         && e[x].node == d[x].node && e[x].parents == d[x].parents + (if x == child then 1 else 0)
         && e[x].children == if x == parent then More(d[x].children, child) else d[x].children
  }

  lemma ReferCounts(d: Dirties, child: Blob, parent: Blob)
    requires child in d && parent in d && child != ZERO
    ensures Referred(d, Referenced(d, child, parent), child, parent)
  {
  }

  lemma ReferDone(c: Cache, order: seq<Blob>, child: Blob, parent: Blob)
    requires Kept(c, order, {}, multiset{}) && child in c.dirties && child != ZERO && parent in c.dirties
    requires parent != ZERO ==> child !in c.dirties[parent].children && Height(child) < Height(parent)
    ensures Refers(c, order, Referenced(c.dirties, child, parent), child, parent)
    ensures Referred(c.dirties, Referenced(c.dirties, child, parent), child, parent)
  {
    KeptKeys(c, order, {}, multiset{});
    ReferKeeps(c, order, child, parent);
    ReferView(c.dirties, c.disk, child, parent);
    ReferCounts(c.dirties, child, parent);
  }

  // ----- dropping references

  /** e holds no more nodes than d and the same roots. */
  ghost predicate Shrinks(d: Dirties, e: Dirties) {
    && (forall h :: h in e ==> h in d && e[h].node == d[h].node)
    && ZERO in d && ZERO in e && e[ZERO].children == d[ZERO].children
  }

  function Dropped(d: Dirties, child: Blob, parent: Blob): Dirties
    requires parent in d
  {
    if child in d[parent].children then d[parent := d[parent].(children := Less(d[parent].children, child))] else d
  }

  lemma DropKeeps(c: Cache, order: seq<Blob>, dying: set<Blob>, pend: multiset<Blob>, child: Blob, parent: Blob)
    requires Kept(c, order, dying, pend) && parent in c.dirties
    requires if parent == ZERO then child in c.dirties[ZERO].children else parent in dying
    ensures var pend' := if parent == ZERO then pend + multiset{child} else pend;
            Kept(c.(dirties := Dropped(c.dirties, child, parent)), order, dying, pend')
  {
    assert Opens(0);
    if parent == ZERO {
      DropFromRoot(c.dirties, c.disk, order, dying, pend, child);
    } else if child in c.dirties[parent].children {
      DropFromDying(c.dirties, c.disk, order, dying, pend, parent, child);
    }
    DropListed(c.dirties, c.oldest, c.newest, order, child, parent);
  }

  lemma DropListed(d: Dirties, oldest: Blob, newest: Blob, order: seq<Blob>, child: Blob, parent: Blob)
    requires Listed(d, oldest, newest, order) && parent in d
    ensures Listed(Dropped(d, child, parent), oldest, newest, order)
  {
    ListedSame(d, Dropped(d, child, parent), oldest, newest, order);
  }

  function Uncounted(d: Dirties, c: Blob): Dirties
    requires c in d
  {
    d[c := d[c].(parents := if d[c].parents > 0 then d[c].parents - 1 else 0)]
  }

  lemma UncountKeeps(c: Cache, order: seq<Blob>, dying: set<Blob>, pend: multiset<Blob>, child: Blob)
    requires Kept(c, order, dying, pend) && child in pend && child in c.dirties && child != ZERO
    ensures Kept(c.(dirties := Uncounted(c.dirties, child)), order, dying, pend - multiset{child})
    ensures Shrinks(c.dirties, Uncounted(c.dirties, child))
  {
    assert Opens(0);
    Uncount(c.dirties, c.disk, order, dying, pend, child);
    ListedSame(c.dirties, Uncounted(c.dirties, child), c.oldest, c.newest, order);
  }

  /** A node that may leave, and what is known about its references. */
  ghost predicate Lower(kids: multiset<Blob>, h: Blob) {
    forall k :: k in kids ==> k != ZERO && Height(k) < Height(h)
  }

  lemma KidsLower(d: Dirties, disk: Store, order: seq<Blob>, dying: set<Blob>, pend: multiset<Blob>, h: Blob)
    requires Inv(d, disk, order, dying, pend) && h in order && h in d && h != ZERO
    ensures Lower(Kids(d[h]), h)
  {
    forall k | k in Kids(d[h])
      ensures k != ZERO && Height(k) < Height(h)
    {
      if k in d[h].children {
        assert k in disk || k in order;
      } else {
        assert k in HashRefs(d[h].node);
        RefsLower(d[h].node, k);
        var i :| 0 <= i < |order| && order[i] == h;
        assert k in disk || k in order[..i];
      }
    }
  }

  /** A node without counted references leaves the list and hands its own references over. */
  lemma LeaveKeeps(c: Cache, c': Cache, order: seq<Blob>, dying: set<Blob>, pend: multiset<Blob>, i: nat)
    requires Kept(c, order, dying, pend) && i < |order| && order[i] in c.dirties
    requires order[i] in c.disk || c.dirties[order[i]].parents == 0
    requires c'.disk == c.disk && Relinked(c.dirties, c'.dirties)
        && Listed(c'.dirties, c'.oldest, c'.newest, Without(order, i))
    ensures order[i] != ZERO && order[i] in c'.dirties
    ensures Kept(c', Without(order, i), dying + {order[i]}, pend + Kids(c.dirties[order[i]]))
    ensures Lower(Kids(c.dirties[order[i]]), order[i])
    ensures Shrinks(c.dirties, c'.dirties)
  {
    assert Opens(0);
    var h := order[i];
    var pend' := pend + Kids(c.dirties[h]);
    Leave(c.dirties, c.disk, order, dying, pend, i);
    Recount(c.dirties, c'.dirties, c.disk, Without(order, i), dying + {h}, pend', pend');
    KidsLower(c.dirties, c.disk, order, dying, pend, h);
  }

  lemma ForgetKeeps(c: Cache, order: seq<Blob>, dying: set<Blob>, pend: multiset<Blob>, h: Blob)
    requires Kept(c, order, dying, pend) && h in dying
    ensures Kept(c.(dirties := c.dirties - {h}), order, dying - {h}, pend)
    ensures Shrinks(c.dirties, c.dirties - {h})
  {
    assert Opens(0);
    Forget(c.dirties, c.disk, order, dying, pend, h);
    forall j | 0 <= j < |order|
      ensures LinkedAt(c.dirties - {h}, order, j)
    {
      assert LinkedAt(c.dirties, order, j);
    }
  }

  /** child may be dropped while the nodes in dying are being torn down. */
  ghost predicate Under(dying: set<Blob>, child: Blob) {
    child != ZERO && forall x :: x in dying ==> Height(child) < Height(x)
  }

  ghost predicate AllUnder(dying: set<Blob>, node: Cached) {
    (forall k :: k in HashRefs(node.node) ==> Under(dying, k)) && (forall k :: k in node.children ==> Under(dying, k))
  }

  lemma KidsUnder(dying: set<Blob>, h: Blob, node: Cached)
    requires Under(dying, h) && Lower(Kids(node), h)
    ensures AllUnder(dying + {h}, node)
  {
    forall k | k in HashRefs(node.node) || k in node.children
      ensures Under(dying + {h}, k)
    {
      assert k in Kids(node);
    }
  }

  lemma TailMultiset(refs: seq<Blob>, j: nat)
    requires j < |refs|
    ensures multiset(refs[j..]) == multiset{refs[j]} + multiset(refs[j + 1..])
  {
    assert refs[j..] == [refs[j]] + refs[j + 1..];
  }

  /** The cascade only forgets: what is left could be read before and reads the same. */
  lemma ShrinksView(d: Dirties, e: Dirties, disk: Store)
    requires Shrinks(d, e) && forall h :: h in d && h in disk && h != ZERO ==> d[h].node == disk[h]
    ensures forall h :: h in View(e, disk) ==> h in View(d, disk) && View(e, disk)[h] == View(d, disk)[h]
  {
  }

  lemma DereferenceView(c: Cache, order: seq<Blob>, root: Blob, e: Dirties)
    requires Kept(c, order, {}, multiset{}) && ZERO in c.dirties && Shrinks(Dropped(c.dirties, root, ZERO), e)
    ensures forall h :: h in View(e, c.disk) ==>
        h in View(c.dirties, c.disk) && View(e, c.disk)[h] == View(c.dirties, c.disk)[h]
  {
    assert Opens(0);
    var d := Dropped(c.dirties, root, ZERO);
    ShrinksView(d, e, c.disk);
    assert d.Keys == c.dirties.Keys;
  }

  lemma FewerKept(c: Cache, order: seq<Blob>, dying: set<Blob>, pend: multiset<Blob>, pend': multiset<Blob>)
    requires Kept(c, order, dying, pend) && pend' <= pend
    ensures Kept(c, order, dying, pend')
  {
    assert Opens(0);
    FewerPending(c.dirties, c.disk, order, dying, pend, pend');
  }

  // ----- moving to disk

  lemma StoreSame(a: Store, b: Store)
    requires StoreOk(a) && StoreOk(b) && a.Keys == b.Keys
    ensures a == b
  {
  }

  lemma KeptView(c: Cache, order: seq<Blob>)
    requires Kept(c, order, {}, multiset{})
    ensures StoreOk(View(c.dirties, c.disk)) && Closed(View(c.dirties, c.disk)) && StoreOk(c.disk) && Closed(c.disk)
    ensures ZERO in c.dirties && ZERO !in c.disk
    ensures forall r :: r in c.dirties[ZERO].children ==> r in View(c.dirties, c.disk)
  {
    assert Opens(0);
    ViewClosed(c.dirties, c.disk, order);
  }

  /** A batch of nodes that can be read already goes to disk: what can be read stays the same. */
  lemma PersistKeeps(c: Cache, order: seq<Blob>, batch: seq<Entry>)
    requires Kept(c, order, {}, multiset{}) && Writable(c.disk, batch)
    requires forall i :: 0 <= i < |batch| ==> batch[i].key in View(c.dirties, c.disk)
    ensures Kept(c.(disk := Written(c.disk, batch)), order, {}, multiset{})
    ensures View(c.dirties, Written(c.disk, batch)) == View(c.dirties, c.disk)
  {
    KeptView(c, order);
    PersistInv(c, order, batch);
    KeptView(c.(disk := Written(c.disk, batch)), order);
    WrittenKeys(c.disk, batch);
    var v, w := View(c.dirties, c.disk), View(c.dirties, Written(c.disk, batch));
    assert v.Keys == w.Keys;
    StoreSame(v, w);
  }

  lemma PersistInv(c: Cache, order: seq<Blob>, batch: seq<Entry>)
    requires Kept(c, order, {}, multiset{}) && Writable(c.disk, batch)
    ensures Kept(c.(disk := Written(c.disk, batch)), order, {}, multiset{})
  {
    assert Opens(0);
    Persist(c.dirties, c.disk, batch, order);
  }

  /** The first k nodes of the flush list. */
  ghost predicate Front(d: Dirties, order: seq<Blob>, k: nat, batch: seq<Entry>) {
    |batch| == k <= |order| && forall j :: 0 <= j < k ==> order[j] in d && batch[j] == Entry(order[j], d[order[j]].node)
  }

  /** Older nodes come first, so any front of the list can be written on its own. */
  lemma FrontWritable(c: Cache, order: seq<Blob>, k: nat, batch: seq<Entry>)
    requires Kept(c, order, {}, multiset{}) && Front(c.dirties, order, k, batch)
    ensures Writable(c.disk, batch) && forall i :: 0 <= i < |batch| ==> batch[i].key in View(c.dirties, c.disk)
  {
    assert Opens(0);
    forall i, x | 0 <= i < |batch| && x in HashRefs(batch[i].value)
      ensures x in c.disk || InBatch(batch, x)
    {
      if x !in c.disk {
        assert x in order[..i];
        var j :| 0 <= j < i && order[j] == x;
        assert batch[j].key == x;
      }
    }
  }

  lemma FrontNext(c: Cache, order: seq<Blob>, k: nat, batch: seq<Entry>)
    requires Kept(c, order, {}, multiset{}) && Front(c.dirties, order, k, batch) && At(order, k) != ZERO
    ensures k < |order| && order[k] in c.dirties && c.dirties[order[k]].next == At(order, k + 1)
    ensures Front(c.dirties, order, k + 1, batch + [Entry(order[k], c.dirties[order[k]].node)])
  {
    assert Opens(0);
    assert LinkedAt(c.dirties, order, k);
  }

  /** A persisted node at the head of the list is forgotten. */
  function Popped(c: Cache): Cache
    requires c.oldest in c.dirties
  {
    c.(dirties := c.dirties - {c.oldest}, oldest := c.dirties[c.oldest].next)
  }

  lemma PopKeeps(c: Cache, order: seq<Blob>)
    requires Kept(c, order, {}, multiset{}) && |order| > 0 && order[0] in c.disk
    ensures c.oldest in c.dirties && Kept(Popped(c), order[1..], {}, multiset{})
  {
    assert Opens(0);
    var h, d := order[0], c.dirties;
    assert LinkedAt(d, order, 0);
    Leave(d, c.disk, order, {}, multiset{}, 0);
    assert Without(order, 0) == order[1..];
    FewerPending(d, c.disk, order[1..], {h}, multiset{} + Kids(d[h]), multiset{});
    Forget(d, c.disk, order[1..], {h}, multiset{}, h);
    assert {h} - {h} == {} && {} + {h} == {h};
    PopListed(c, order);
  }

  lemma PopListed(c: Cache, order: seq<Blob>)
    requires Listed(c.dirties, c.oldest, c.newest, order) && |order| > 0 && c.oldest in c.dirties
    ensures var p := Popped(c); Listed(p.dirties, p.oldest, p.newest, order[1..])
  {
    var p, w := Popped(c), order[1..];
    assert LinkedAt(c.dirties, order, 0);
    assert Distinct(w);
    forall j | 0 <= j < |w|
      ensures LinkedAt(p.dirties, w, j)
    {
      assert LinkedAt(c.dirties, order, j + 1);
      assert w[j] != order[0];
    }
  }

  /** Forgetting a persisted node does not change what can be read. */
  lemma ForgetView(d: Dirties, disk: Store, h: Blob)
    requires h in disk && h != ZERO && StoreOk(View(d, disk)) && StoreOk(View(d - {h}, disk))
    ensures View(d - {h}, disk) == View(d, disk)
  {
    assert View(d - {h}, disk).Keys == View(d, disk).Keys;
    StoreSame(View(d - {h}, disk), View(d, disk));
  }

  /** What moving nodes out of memory amounts to. */
  ghost predicate Moves(c: Cache, order: seq<Blob>, c': Cache, order': seq<Blob>) {
    && Kept(c', order', {}, multiset{}) && c'.disk == c.disk
    && View(c'.dirties, c'.disk) == View(c.dirties, c.disk)
    && ZERO in c.dirties && ZERO in c'.dirties && c'.dirties[ZERO].children == c.dirties[ZERO].children
  }

  lemma PopMoves(c: Cache, order: seq<Blob>)
    requires Kept(c, order, {}, multiset{}) && |order| > 0 && order[0] in c.disk
    ensures c.oldest in c.dirties && c.oldest == order[0] && c.dirties[c.oldest].next == At(order[1..], 0)
    ensures Moves(c, order, Popped(c), order[1..])
  {
    PopKeeps(c, order);
    KeptListed(c, order, {}, multiset{});
    KeptListed(Popped(c), order[1..], {}, multiset{});
    KeptView(c, order);
    KeptView(Popped(c), order[1..]);
    assert c.oldest != ZERO;
    ForgetView(c.dirties, c.disk, c.oldest);
  }

  lemma HeadMoves(c: Cache, order: seq<Blob>)
    requires Kept(c, order, {}, multiset{}) && c.oldest != ZERO
    ensures c.oldest in c.dirties && Moves(c, order, c.(dirties := SetPrev(c.dirties, c.oldest, ZERO)), order)
  {
    assert Opens(0);
    assert LinkedAt(c.dirties, order, 0);
    var e := SetPrev(c.dirties, c.oldest, ZERO);
    Recount(c.dirties, e, c.disk, order, {}, multiset{}, multiset{});
    SameRefsView(c.dirties, e, c.disk);
    HeadRelinked(c.dirties, c.oldest, c.newest, order);
  }

  lemma HeadRelinked(d: Dirties, oldest: Blob, newest: Blob, order: seq<Blob>)
    requires Listed(d, oldest, newest, order) && oldest in d && oldest != ZERO
    ensures Listed(SetPrev(d, oldest, ZERO), oldest, newest, order)
  {
    forall j | 0 <= j < |order|
      ensures LinkedAt(SetPrev(d, oldest, ZERO), order, j)
    {
      assert LinkedAt(d, order, j);
    }
  }

  lemma LeaveStrung(c: Cache, c': Cache, order: seq<Blob>, i: nat)
    requires Kept(c, order, {}, multiset{}) && i < |order| && order[i] in c.dirties && order[i] in c.disk
    requires c'.disk == c.disk && Relinked(c.dirties, c'.dirties) && Strung(c', Without(order, i))
    ensures order[i] != ZERO && order[i] in c'.dirties
    ensures Kept(c', Without(order, i), {} + {order[i]}, multiset{} + Kids(c.dirties[order[i]]))
  {
    assert Opens(0);
    LeaveKeeps(c, c', order, {}, multiset{}, i);
  }

  /** A persisted node is unlinked and forgotten. */
  lemma PutMoves(c: Cache, c': Cache, order: seq<Blob>, i: nat)
    requires Kept(c, order, {}, multiset{}) && i < |order| && order[i] in c.dirties && order[i] in c.disk
    requires c'.disk == c.disk && Relinked(c.dirties, c'.dirties) && Strung(c', Without(order, i))
    ensures Moves(c, order, c'.(dirties := c'.dirties - {order[i]}), Without(order, i))
  {
    var h, w := order[i], Without(order, i);
    LeaveStrung(c, c', order, i);
    assert {} + {h} == {h} && {h} - {h} == {};
    FewerKept(c', w, {h}, multiset{} + Kids(c.dirties[h]), multiset{});
    ForgetKeeps(c', w, {h}, multiset{}, h);
    KeptView(c, order);
    KeptView(c'.(dirties := c'.dirties - {h}), w);
    SameRefsView(c.dirties, c'.dirties, c.disk);
    ForgetView(c'.dirties, c.disk, h);
  }

  // ----- committing

  ghost predicate Safe(disk: Store, batch: seq<Entry>, h: Blob) {
    h in disk || InBatch(batch, h)
  }

  /** The batch on the way to disk, and what a commit may rely on. */
  ghost predicate BatchOk(c: Cache, batch: seq<Entry>) {
    Writable(c.disk, batch) && forall i :: 0 <= i < |batch| ==> batch[i].key in View(c.dirties, c.disk)
  }

  lemma BatchAdd(c: Cache, batch: seq<Entry>, h: Blob, item: Item)
    requires BatchOk(c, batch) && h == Keccak(item) && h in View(c.dirties, c.disk)
    requires forall x :: x in HashRefs(item) ==> Safe(c.disk, batch, x)
    ensures BatchOk(c, batch + [Entry(h, item)])
    ensures forall x :: Safe(c.disk, batch, x) || x == h ==> Safe(c.disk, batch + [Entry(h, item)], x)
  {
    var b := batch + [Entry(h, item)];
    forall x | InBatch(batch, x) || x == h
      ensures InBatch(b, x)
    {
      if x == h {
        assert b[|batch|].key == h;
      } else {
        var i :| 0 <= i < |batch| && batch[i].key == x;
        assert b[i].key == x;
      }
    }
    assert forall i :: 0 <= i < |batch| ==> b[i] == batch[i];
  }

  lemma CommitKids(c: Cache, order: seq<Blob>, h: Blob)
    requires Kept(c, order, {}, multiset{}) && h in c.dirties && h != ZERO
    ensures h == Keccak(c.dirties[h].node)
    ensures forall k :: k in HashRefs(c.dirties[h].node) ==>
        k != ZERO && Height(k) < Height(h) && k in View(c.dirties, c.disk)
    ensures forall k :: k in c.dirties[h].children ==> k != ZERO && Height(k) < Height(h)
  {
    assert Opens(0);
    KidsLower(c.dirties, c.disk, order, {}, multiset{}, h);
    KeptView(c, order);
    assert View(c.dirties, c.disk)[h] == c.dirties[h].node;
    assert forall k :: k in HashRefs(c.dirties[h].node) || k in c.dirties[h].children ==> k in Kids(c.dirties[h]);
  }

  lemma FrontKeys(c: Cache, order: seq<Blob>, k: nat, batch: seq<Entry>)
    requires Kept(c, order, {}, multiset{}) && Front(c.dirties, order, k, batch)
    ensures forall h :: h in Written(c.disk, batch) <==> h in c.disk || h in order[..k]
  {
    FrontWritable(c, order, k, batch);
    KeptView(c, order);
    WrittenKeys(c.disk, batch);
    forall h
      ensures InBatch(batch, h) <==> h in order[..k]
    {
      if InBatch(batch, h) {
        var i :| 0 <= i < |batch| && batch[i].key == h;
        assert order[..k][i] == h;
      }
      if h in order[..k] {
        var i :| 0 <= i < k && order[i] == h;
        assert batch[i].key == h;
      }
    }
  }

  lemma StillBeforeLast(c: Cache, order: seq<Blob>, dying: set<Blob>, pend: multiset<Blob>, all: seq<Blob>, i: nat,
      k: nat)
    requires Kept(c, order, dying, pend) && i <= k <= |all| && order == all[i..] && c.oldest != At(all, k)
    ensures i < k && |order| > 0 && order[0] == all[i]
  {
    KeptListed(c, order, dying, pend);
    assert i < |all| ==> order[0] == all[i];
  }

  /** The node to stop at is met exactly once. */
  lemma FrontReached(c: Cache, order: seq<Blob>, dying: set<Blob>, pend: multiset<Blob>, all: seq<Blob>, i: nat, k: nat)
    requires Kept(c, order, dying, pend) && i <= k <= |all| && order == all[i..] && c.oldest == At(all, k)
    ensures i == k
  {
    KeptListed(c, order, dying, pend);
    if k < |all| {
      assert order[0] == all[i] && order[k - i] == all[k];
    } else {
      HeadListed(order);
    }
  }

  lemma KeptExact(c: Cache, order: seq<Blob>)
    requires Kept(c, order, {}, multiset{})
    ensures ZERO !in order && forall h :: h in c.dirties <==> h == ZERO || h in order
  {
    assert Opens(0);
  }

  lemma CountedOnce(c: Cache, order: seq<Blob>, p: Blob, h: Blob)
    requires Kept(c, order, {}, multiset{}) && p in order && p in c.dirties && h in HashRefs(c.dirties[p].node)
    requires h !in c.disk && h in c.dirties && c.dirties[h].parents == 1 && h != ZERO
    ensures ZERO in c.dirties && h !in c.dirties[ZERO].children && Refs(order, c.dirties, h) > 0
  {
    assert Opens(0);
    var i :| 0 <= i < |order| && order[i] == p;
    RefsAtLeast(order, i, c.dirties, h);
    KidsOcc(c.dirties[p], h);
  }
}
