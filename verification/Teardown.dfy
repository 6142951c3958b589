/**
  Dropping references. A cascade of removals keeps the shape of the cache whatever the counts are;
  if the counts are right it keeps them right as well.
 */
module Teardown {
  import opened Rlp
  import opened Seal
  import opened Nodes
  import opened NodeCache

  /** A database, with its flush list, the nodes being torn down and their references still counted. */
  datatype Snapshot = Snapshot(c: Cache, order: seq<Blob>, dying: set<Blob>, pend: multiset<Blob>)

  ghost predicate Good(f: Snapshot) {
    Kept(f.c, f.order, f.dying, f.pend)
  }

  /** What a removal needs in order to run: a linked list of the nodes, and references that go down. */
  ghost predicate Shaped(c: Cache, order: seq<Blob>, dying: set<Blob>) {
    && Listed(c.dirties, c.oldest, c.newest, order) && Keyed(c.dirties, order, dying) && Graded(c.dirties, c.disk)
    && forall h :: h in order && h in c.dirties ==> Lower(Kids(c.dirties[h]), h)
  }

  ghost predicate Framed(f: Snapshot) {
    forall key :: Opens(key) ==> Shaped(f.c, f.order, f.dying)
  }

  lemma GoodFramed(f: Snapshot)
    requires Good(f)
    ensures Framed(f)
  {
    assert Opens(0);
    forall h | h in f.order && h in f.c.dirties
      ensures Lower(Kids(f.c.dirties[h]), h)
    {
      KidsLower(f.c.dirties, f.c.disk, f.order, f.dying, f.pend, h);
    }
  }

  lemma FramedKeys(f: Snapshot)
    requires Framed(f)
    ensures ZERO in f.c.dirties && ZERO !in f.dying && ZERO !in f.order
    ensures forall h :: h in f.c.dirties <==> h == ZERO || h in f.order || h in f.dying
    ensures (forall h :: h in f.dying ==> h !in f.order) && Strung(f.c, f.order)
  {
    assert Opens(0);
  }

  /** The pending references do not matter for the shape. */
  lemma FramedPend(f: Snapshot, pend: multiset<Blob>)
    requires Framed(f)
    ensures Framed(f.(pend := pend))
  {
  }

  // ----- cascades

  /** Nodes higher than h that are not being torn down keep their references. */
  ghost predicate Above(d: Dirties, e: Dirties, dying: set<Blob>, h: Blob) {
    forall x :: x in d && x != ZERO && x !in dying && Height(x) > Height(h) ==>
                  x in e && e[x].node == d[x].node && e[x].children == d[x].children
  }

  ghost predicate Fewer(f: Snapshot, g: Snapshot, h: Blob) {
    && g.c.disk == f.c.disk && Shrinks(f.c.dirties, g.c.dirties) && Above(f.c.dirties, g.c.dirties, f.dying, h)
    && (Good(f) ==> Good(g) && Even(f, g))
  }

  /** The references to x that are still there. */
  function Owed(f: Snapshot, x: Blob): nat {
    Refs(f.order, f.c.dirties, x) + RootRefs(f.c.dirties, x) + f.pend[x]
  }

  /**
    A node that is left has its own references as before, unless it is being torn down, and its count
    is down by exactly the number of references to it that are gone.
   */
  ghost predicate EvenAt(f: Snapshot, g: Snapshot, x: Blob)
    requires x in g.c.dirties
  {
    && x in f.c.dirties && g.c.dirties[x].node == f.c.dirties[x].node
    && (x != ZERO && x !in g.dying ==> x !in f.dying && g.c.dirties[x].children == f.c.dirties[x].children)
    && (x != ZERO && x !in f.c.disk ==>
        g.c.dirties[x].parents + Owed(f, x) == f.c.dirties[x].parents + Owed(g, x))
  }

  ghost predicate Even(f: Snapshot, g: Snapshot) {
    forall x :: x in g.c.dirties ==> EvenAt(f, g, x)
  }

  ghost predicate EvenBut(f: Snapshot, g: Snapshot, root: Blob) {
    forall x :: x in g.c.dirties && x != root ==> EvenAt(f, g, x)
  }

  /** No node whose count fell to zero is left. */
  ghost predicate ZerosGone(f: Snapshot, g: Snapshot) {
    forall x :: x in g.c.dirties && x != ZERO && g.c.dirties[x].parents == 0 ==>
                  x in f.c.dirties && f.c.dirties[x].parents == 0
  }

  lemma ZerosTrans(f: Snapshot, g: Snapshot, k: Snapshot)
    requires ZerosGone(f, g) && ZerosGone(g, k)
    ensures ZerosGone(f, k)
  {
  }

  lemma EvenTrans(f: Snapshot, g: Snapshot, k: Snapshot)
    requires Even(f, g) && Even(g, k) && f.c.disk == g.c.disk
    ensures Even(f, k)
  {
  }

  /** What a removal starting at h does. */
  ghost predicate Cascades(f: Snapshot, g: Snapshot, h: Blob) {
    Framed(g) && forall key :: Opens(key) ==> Fewer(f, g, h)
  }

  lemma CascadesSelf(f: Snapshot, h: Blob)
    requires Framed(f)
    ensures Cascades(f, f, h)
  {
    FramedKeys(f);
  }

  lemma CascadesTrans(f: Snapshot, g: Snapshot, k: Snapshot, a: Blob, b: Blob, h: Blob)
    requires Cascades(f, g, a) && Cascades(g, k, b) && Height(a) <= Height(h) && Height(b) <= Height(h)
    requires forall x :: x in g.dying ==> x in f.dying || Height(x) <= Height(h)
    ensures Cascades(f, k, h)
  {
    CascadesFacts(f, g, a);
    CascadesFacts(g, k, b);
    AboveTrans(f.c.dirties, g.c.dirties, k.c.dirties, f.dying, g.dying, a, b, h);
    if Good(f) {
      EvenTrans(f, g, k);
    }
    CascadesIntro(f, k, h);
  }

  lemma AboveTrans(d: Dirties, e: Dirties, u: Dirties, x: set<Blob>, y: set<Blob>, a: Blob, b: Blob, h: Blob)
    requires Above(d, e, x, a) && Above(e, u, y, b) && Height(a) <= Height(h) && Height(b) <= Height(h)
    requires forall z :: z in y ==> z in x || Height(z) <= Height(h)
    ensures Above(d, u, x, h)
  {
  }

  lemma CascadesFacts(f: Snapshot, g: Snapshot, h: Blob)
    requires Cascades(f, g, h)
    ensures Framed(g) && Fewer(f, g, h)
  {
    assert Opens(0);
  }

  lemma CascadesIntro(f: Snapshot, g: Snapshot, h: Blob)
    requires Framed(g) && Fewer(f, g, h)
    ensures Cascades(f, g, h)
  {
  }

  // ----- the steps of a cascade

  /** A dying node gives up an external child. */
  lemma DropStep(f: Snapshot, child: Blob, parent: Blob, h: Blob)
    requires Framed(f) && parent in f.dying && parent in f.c.dirties
    ensures Cascades(f, f.(c := f.c.(dirties := Dropped(f.c.dirties, child, parent))), h)
  {
    DropFramed(f, child, parent);
    FramedKeys(f);
    DropFewer(f.c.dirties, f.dying, child, parent, h);
    if Good(f) {
      DropKeeps(f.c, f.order, f.dying, f.pend, child, parent);
      DropEven(f, child, parent);
    }
    CascadesIntro(f, f.(c := f.c.(dirties := Dropped(f.c.dirties, child, parent))), h);
  }

  lemma DropEven(f: Snapshot, child: Blob, parent: Blob)
    requires parent in f.c.dirties && parent != ZERO && parent in f.dying && parent !in f.order
    ensures Even(f, f.(c := f.c.(dirties := Dropped(f.c.dirties, child, parent))))
  {
    var e := Dropped(f.c.dirties, child, parent);
    forall x | x in e && x != ZERO
      ensures Refs(f.order, f.c.dirties, x) == Refs(f.order, e, x)
    {
      RefsSame(f.order, f.c.dirties, e, x);
    }
  }

  lemma DropFewer(d: Dirties, dying: set<Blob>, child: Blob, parent: Blob, h: Blob)
    requires parent in d && ZERO in d && parent != ZERO && parent in dying
    ensures Shrinks(d, Dropped(d, child, parent)) && Above(d, Dropped(d, child, parent), dying, h)
  {
  }

  lemma DropFramed(f: Snapshot, child: Blob, parent: Blob)
    requires Framed(f) && (parent == ZERO || parent in f.dying) && parent in f.c.dirties
    ensures Framed(f.(c := f.c.(dirties := Dropped(f.c.dirties, child, parent))))
  {
    assert Opens(0);
    DropListed(f.c.dirties, f.c.oldest, f.c.newest, f.order, child, parent);
    DropGraded(f.c.dirties, f.c.disk, child, parent);
    DropLower(f.c.dirties, f.order, child, parent);
  }

  lemma DropGraded(d: Dirties, disk: Store, child: Blob, parent: Blob)
    requires Graded(d, disk) && parent in d
    ensures Graded(Dropped(d, child, parent), disk)
  {
    if child in d[parent].children {
      var kids := Less(d[parent].children, child);
      assert forall c :: c in kids ==> c in d[parent].children && kids[c] > 0;
    }
  }

  lemma DropLower(d: Dirties, order: seq<Blob>, child: Blob, parent: Blob)
    requires parent in d && parent !in order && forall h :: h in order && h in d ==> Lower(Kids(d[h]), h)
    ensures forall h :: h in order && h in Dropped(d, child, parent) ==> Lower(Kids(Dropped(d, child, parent)[h]), h)
  {
  }

  /** One reference to child is not counted any more. */
  function Released(f: Snapshot, child: Blob): Snapshot
    requires child in f.c.dirties
  {
    f.(c := f.c.(dirties := Uncounted(f.c.dirties, child)), pend := f.pend - multiset{child})
  }

  lemma UncountStep(f: Snapshot, child: Blob)
    requires Framed(f) && child in f.c.dirties && child != ZERO && child in f.pend
    ensures Cascades(f, Released(f, child), child)
  {
    UncountFramed(f, child);
    FramedKeys(f);
    UncountFewer(f.c.dirties, f.dying, child);
    if Good(f) {
      UncountKeeps(f.c, f.order, f.dying, f.pend, child);
      UncountEven(f, child);
    }
    CascadesIntro(f, Released(f, child), child);
  }

  /** A node off disk has a count for every reference, so that it really goes down. */
  lemma UncountEven(f: Snapshot, child: Blob)
    requires Good(f) && child in f.c.dirties && child != ZERO && child in f.pend
    ensures Even(f, Released(f, child))
  {
    var g := Released(f, child);
    assert SameRefs(f.c.dirties, g.c.dirties);
    forall x | x in g.c.dirties && x != ZERO && x !in f.c.disk
      ensures g.c.dirties[x].parents + Owed(f, x) == f.c.dirties[x].parents + Owed(g, x)
    {
      SameRefsCount(f.order, f.c.dirties, g.c.dirties, x);
      GoodOwed(f, x);
      assert g.pend[x] == if x == child then f.pend[x] - 1 else f.pend[x];
    }
  }

  lemma GoodOwed(f: Snapshot, x: Blob)
    requires Good(f) && x in f.c.dirties && x != ZERO && x !in f.c.disk
    ensures f.c.dirties[x].parents >= Owed(f, x)
  {
    assert Opens(0);
  }

  lemma UncountFewer(d: Dirties, dying: set<Blob>, child: Blob)
    requires child in d && ZERO in d
    ensures Shrinks(d, Uncounted(d, child)) && Above(d, Uncounted(d, child), dying, child)
  {
  }

  lemma UncountFramed(f: Snapshot, child: Blob)
    requires Framed(f) && child in f.c.dirties
    ensures Framed(Released(f, child))
  {
    assert Opens(0);
    var d, e := f.c.dirties, Uncounted(f.c.dirties, child);
    ListedSame(d, e, f.c.oldest, f.c.newest, f.order);
    SameShape(f.c, f.c.(dirties := e), f.order, f.dying);
  }

  /** Counts and links do not matter for the shape, as long as the list is linked. */
  lemma SameShape(c: Cache, c': Cache, order: seq<Blob>, dying: set<Blob>)
    requires Shaped(c, order, dying) && c'.disk == c.disk && SameRefs(c.dirties, c'.dirties)
    requires Listed(c'.dirties, c'.oldest, c'.newest, order)
    ensures Shaped(c', order, dying)
  {
    forall h | h in order && h in c'.dirties
      ensures Lower(Kids(c'.dirties[h]), h)
    {
      assert Kids(c'.dirties[h]) == Kids(c.dirties[h]);
    }
  }

  /** A reference to a node that is not in memory is dropped. */
  lemma GoneStep(f: Snapshot, child: Blob)
    requires Framed(f) && child !in f.c.dirties
    ensures Cascades(f, f.(pend := f.pend - multiset{child}), child)
  {
    FramedKeys(f);
    if Good(f) {
      FewerKept(f.c, f.order, f.dying, f.pend, f.pend - multiset{child});
      GoneEven(f, child);
    }
    CascadesIntro(f, f.(pend := f.pend - multiset{child}), child);
  }

  lemma GoneEven(f: Snapshot, child: Blob)
    requires child !in f.c.dirties
    ensures Even(f, f.(pend := f.pend - multiset{child}))
  {
    assert forall x :: x != child ==> (f.pend - multiset{child})[x] == f.pend[x];
  }

  /** A node without counted references leaves the flush list. */
  lemma LeaveStep(f: Snapshot, c': Cache, i: nat)
    requires Framed(f) && i < |f.order| && f.order[i] in f.c.dirties && f.c.dirties[f.order[i]].parents == 0
    requires c'.disk == f.c.disk && Relinked(f.c.dirties, c'.dirties)
    requires Strung(c', Without(f.order, i))
    ensures var h := f.order[i];
            Cascades(f, Snapshot(c', Without(f.order, i), f.dying + {h}, f.pend + Kids(f.c.dirties[h])), h)
    ensures Lower(Kids(f.c.dirties[f.order[i]]), f.order[i])
  {
    var h := f.order[i];
    var g := Snapshot(c', Without(f.order, i), f.dying + {h}, f.pend + Kids(f.c.dirties[h]));
    LeaveFramed(f, c', i, g);
    FramedKeys(f);
    if Good(f) {
      LeaveGood(f, c', i);
      LeaveEven(f, c', i);
    }
    CascadesIntro(f, g, h);
  }

  lemma LeaveEven(f: Snapshot, c': Cache, i: nat)
    requires i < |f.order| && f.order[i] in f.c.dirties && Relinked(f.c.dirties, c'.dirties) && c'.disk == f.c.disk
    ensures var h := f.order[i];
            Even(f, Snapshot(c', Without(f.order, i), f.dying + {h}, f.pend + Kids(f.c.dirties[h])))
  {
    var h := f.order[i];
    var g := Snapshot(c', Without(f.order, i), f.dying + {h}, f.pend + Kids(f.c.dirties[h]));
    forall x | x in g.c.dirties && x != ZERO
      ensures Owed(f, x) == Owed(g, x)
    {
      RefsWithout(f.order, i, f.c.dirties, x);
      SameRefsCount(Without(f.order, i), f.c.dirties, c'.dirties, x);
      KidsOcc(f.c.dirties[h], x);
    }
  }

  lemma LeaveGood(f: Snapshot, c': Cache, i: nat)
    requires Good(f) && i < |f.order| && f.order[i] in f.c.dirties && f.c.dirties[f.order[i]].parents == 0
    requires c'.disk == f.c.disk && Relinked(f.c.dirties, c'.dirties) && Strung(c', Without(f.order, i))
    ensures Kept(c', Without(f.order, i), f.dying + {f.order[i]}, f.pend + Kids(f.c.dirties[f.order[i]]))
  {
    assert Opens(0);
    LeaveKeeps(f.c, c', f.order, f.dying, f.pend, i);
  }

  lemma LeaveFramed(f: Snapshot, c': Cache, i: nat, g: Snapshot)
    requires Framed(f) && i < |f.order| && f.order[i] in f.c.dirties
    requires c'.disk == f.c.disk && Relinked(f.c.dirties, c'.dirties)
    requires Strung(c', Without(f.order, i))
    requires g.c == c' && g.order == Without(f.order, i) && g.dying == f.dying + {f.order[i]}
    ensures Framed(g) && Lower(Kids(f.c.dirties[f.order[i]]), f.order[i])
  {
    assert Opens(0);
    WithoutElements(f.order, i);
    LeaveKeyed(f.c.dirties, c'.dirties, f.order, f.dying, i);
    LeaveGraded(f.c.dirties, c'.dirties, f.c.disk);
    forall h | h in Without(f.order, i) && h in c'.dirties
      ensures Lower(Kids(c'.dirties[h]), h)
    {
      assert Kids(c'.dirties[h]) == Kids(f.c.dirties[h]);
    }
  }

  lemma LeaveKeyed(d: Dirties, e: Dirties, order: seq<Blob>, dying: set<Blob>, i: nat)
    requires Keyed(d, order, dying) && SameRefs(d, e) && i < |order| && Distinct(order)
    ensures Keyed(e, Without(order, i), dying + {order[i]})
  {
    WithoutElements(order, i);
  }

  lemma LeaveGraded(d: Dirties, e: Dirties, disk: Store)
    requires Graded(d, disk) && SameRefs(d, e)
    ensures Graded(e, disk)
  {
  }

  /** A node that has left the list is forgotten. */
  lemma ForgetStep(f: Snapshot, h: Blob)
    requires Framed(f) && h in f.dying
    ensures Cascades(f, f.(c := f.c.(dirties := f.c.dirties - {h}), dying := f.dying - {h}), h)
  {
    ForgetFramed(f, h);
    FramedKeys(f);
    if Good(f) {
      ForgetKeeps(f.c, f.order, f.dying, f.pend, h);
      ForgetEven(f, h);
    }
    CascadesIntro(f, f.(c := f.c.(dirties := f.c.dirties - {h}), dying := f.dying - {h}), h);
  }

  lemma ForgetEven(f: Snapshot, h: Blob)
    requires h in f.dying && h !in f.order && h != ZERO
    ensures Even(f, f.(c := f.c.(dirties := f.c.dirties - {h}), dying := f.dying - {h}))
  {
    var e := f.c.dirties - {h};
    forall x | x in e
      ensures Refs(f.order, f.c.dirties, x) == Refs(f.order, e, x)
    {
      RefsSame(f.order, f.c.dirties, e, x);
    }
  }

  lemma ForgetFramed(f: Snapshot, h: Blob)
    requires Framed(f) && h in f.dying
    ensures Framed(f.(c := f.c.(dirties := f.c.dirties - {h}), dying := f.dying - {h}))
  {
    assert Opens(0);
    var e := f.c.dirties - {h};
    forall j | 0 <= j < |f.order|
      ensures LinkedAt(e, f.order, j)
    {
      assert LinkedAt(f.c.dirties, f.order, j);
      assert f.order[j] in f.order;
    }
  }

  // ----- dropping the reference to a root

  /**
    Dropping a reference to root does no harm: it is held, or it makes no difference, or the count
    is higher than the number of references that are left.
   */
  ghost predicate Droppable(c: Cache, order: seq<Blob>, root: Blob)
    requires ZERO in c.dirties
  {
    || root == ZERO || root in c.dirties[ZERO].children || root !in c.dirties || root in c.disk
    || c.dirties[root].parents == 0 || c.dirties[root].parents > Refs(order, c.dirties, root)
  }

  /** The state in which the removal of a root that is in memory starts. */
  function Dropping(f: Snapshot, root: Blob): Snapshot
    requires ZERO in f.c.dirties && root in f.c.dirties && root != ZERO
  {
    f.(c := f.c.(dirties := Uncounted(Dropped(f.c.dirties, root, ZERO), root)))
  }

  lemma HeldGood(f: Snapshot, root: Blob)
    requires Good(f) && f.pend == multiset{} && ZERO in f.c.dirties && root in f.c.dirties[ZERO].children
    requires root != ZERO && root in f.c.dirties
    ensures Good(Dropping(f, root))
  {
    DropKeeps(f.c, f.order, f.dying, f.pend, root, ZERO);
    var c := f.c.(dirties := Dropped(f.c.dirties, root, ZERO));
    assert multiset{} + multiset{root} == multiset{root};
    UncountKeeps(c, f.order, f.dying, multiset{root}, root);
    assert multiset{root} - multiset{root} == multiset{};
  }

  /** Without a held reference only the count of root changes. */
  lemma UnheldGood(f: Snapshot, root: Blob)
    requires Good(f) && f.pend == multiset{} && ZERO in f.c.dirties && root !in f.c.dirties[ZERO].children
    requires root != ZERO && root in f.c.dirties
    ensures Good(Dropping(f, root)) <==> Droppable(f.c, f.order, root)
  {
    var e := Uncounted(f.c.dirties, root);
    assert Dropped(f.c.dirties, root, ZERO) == f.c.dirties;
    assert SameRefs(f.c.dirties, e);
    SameRefsCount(f.order, f.c.dirties, e, root);
    if Droppable(f.c, f.order, root) {
      SlackGood(f, root, e);
    } else if Good(Dropping(f, root)) {
      GoodCounts(Dropping(f, root), root);
      GoodCounts(f, root);
    }
  }

  lemma SlackGood(f: Snapshot, root: Blob, e: Dirties)
    requires Good(f) && f.pend == multiset{} && root in f.c.dirties && root != ZERO && ZERO in f.c.dirties
    requires e == Uncounted(f.c.dirties, root) && root !in f.c.dirties[ZERO].children
    requires root in f.c.disk || f.c.dirties[root].parents == 0
        || f.c.dirties[root].parents > Refs(f.order, f.c.dirties, root)
    ensures Good(f.(c := f.c.(dirties := e)))
  {
    assert Opens(0);
    ListedSame(f.c.dirties, e, f.c.oldest, f.c.newest, f.order);
    SlackInv(f.c.dirties, e, f.c.disk, f.order, f.dying, root);
  }

  lemma SlackInv(d: Dirties, e: Dirties, disk: Store, order: seq<Blob>, dying: set<Blob>, root: Blob)
    requires Inv(d, disk, order, dying, multiset{}) && root in d && e == Uncounted(d, root) && root != ZERO
    requires RootRefs(d, root) == 0
    requires root in disk || d[root].parents == 0 || d[root].parents > Refs(order, d, root)
    ensures Inv(e, disk, order, dying, multiset{})
  {
    forall c | c in e && c != ZERO && c !in disk
      ensures e[c].parents >= Refs(order, e, c) + RootRefs(e, c)
    {
      SameRefsCount(order, d, e, c);
    }
    assert Ordered(e, disk, order) && Anchored(e, disk, order) && Graded(e, disk);
  }

  lemma GoodCounts(f: Snapshot, h: Blob)
    requires Good(f) && h in f.c.dirties && h != ZERO && h !in f.c.disk
    ensures f.c.dirties[h].parents >= Refs(f.order, f.c.dirties, h) + RootRefs(f.c.dirties, h)
  {
    assert Opens(0);
  }

  lemma {:induction false} SomeReferrer(order: seq<Blob>, d: Dirties, c: Blob) returns (p: Blob)
    requires Refs(order, d, c) > 0
    ensures p in order && p in d && OccAt(d, p, c) > 0
  {
    p := order[|order| - 1];
    if OccAt(d, p, c) == 0 {
      p := SomeReferrer(order[..|order| - 1], d, c);
    }
  }

  /** Once the last counted reference is gone although a node still refers to root, nothing is right. */
  lemma BadStaysBad(f: Snapshot, g: Snapshot, root: Blob)
    requires Framed(f) && f.dying == {} && root in f.order && root in f.c.dirties && root !in f.c.disk
    requires Refs(f.order, f.c.dirties, root) > 0
    requires Cascades(f, g, root) && g.dying == {} && root !in g.c.dirties
    ensures !Good(g)
  {
    var p := SomeReferrer(f.order, f.c.dirties, root);
    assert Opens(0);
    KidsOcc(f.c.dirties[p], root);
    assert root in Kids(f.c.dirties[p]) && Height(p) > Height(root);
    assert p in g.c.dirties && g.c.dirties[p].node == f.c.dirties[p].node;
    if Good(g) {
      StillReferred(g, p, root);
    }
  }

  lemma StillReferred(g: Snapshot, p: Blob, root: Blob)
    requires Good(g) && g.dying == {} && p in g.c.dirties && p != ZERO && root in Kids(g.c.dirties[p])
    ensures root in g.c.disk || root in g.c.dirties
  {
    GoodReferred(g, p);
    var i :| 0 <= i < |g.order| && g.order[i] == p;
    if root !in g.c.dirties[p].children {
      assert root in HashRefs(g.c.dirties[p].node);
      assert root in g.c.disk || root in g.order[..i];
    }
  }

  lemma GoodReferred(g: Snapshot, p: Blob)
    requires Good(g) && g.dying == {} && p in g.c.dirties && p != ZERO
    ensures p in g.order && Ordered(g.c.dirties, g.c.disk, g.order) && Anchored(g.c.dirties, g.c.disk, g.order)
    ensures forall h :: h in g.order ==> h in g.c.dirties
  {
    assert Opens(0);
  }

  /** What releasing a node in memory comes to: its count goes down, and at zero it is torn down. */
  ghost predicate Releases(f: Snapshot, g: Snapshot, child: Blob) {
    if child !in f.c.dirties then g == f.(pend := f.pend - multiset{child})
    else
      && Cascades(Released(f, child), g, child)
      && if Released(f, child).c.dirties[child].parents > 0 then g == Released(f, child) else child !in g.c.dirties
  }

  lemma MetaRootFree(c: Cache, order: seq<Blob>)
    requires Kept(c, order, {}, multiset{})
    ensures ZERO in c.dirties && ZERO !in c.dirties[ZERO].children
  {
    assert Opens(0);
  }

  /** After one reference to root has been dropped, the database is as it should be exactly if that did no harm. */
  lemma DereferenceExact(f: Snapshot, g: Snapshot, k: Snapshot, root: Blob)
    requires Good(f) && f.pend == multiset{} && f.dying == {} && ZERO in f.c.dirties && root != ZERO
    requires g == f.(c := f.c.(dirties := Dropped(f.c.dirties, root, ZERO)))
    requires Releases(g.(pend := multiset{root}), k, root) && k.pend == multiset{} && k.dying == {}
    ensures Good(k) <==> Droppable(f.c, f.order, root)
  {
    if root !in f.c.dirties {
      AbsentGood(f, root);
    } else {
      var x := Dropping(f, root);
      assert multiset{root} - multiset{root} == multiset{};
      assert Released(g.(pend := multiset{root}), root) == x;
      if root in f.c.dirties[ZERO].children {
        HeldGood(f, root);
      } else {
        UnheldGood(f, root);
      }
      CascadesFacts(x, k, root);
      if !Good(x) && root !in k.c.dirties {
        UnheldBad(f, x, k, root);
      }
    }
  }

  /** A root that is not in memory any more. */
  lemma AbsentGood(f: Snapshot, root: Blob)
    requires Good(f) && f.pend == multiset{} && ZERO in f.c.dirties && root !in f.c.dirties
    ensures Good(f.(c := f.c.(dirties := Dropped(f.c.dirties, root, ZERO))))
  {
    if root in f.c.dirties[ZERO].children {
      DropKeeps(f.c, f.order, f.dying, f.pend, root, ZERO);
      FewerKept(f.c.(dirties := Dropped(f.c.dirties, root, ZERO)), f.order, f.dying,
                f.pend + multiset{root}, multiset{});
    }
  }

  lemma UnheldBad(f: Snapshot, x: Snapshot, k: Snapshot, root: Blob)
    requires Good(f) && f.pend == multiset{} && f.dying == {} && ZERO in f.c.dirties && root != ZERO
    requires root in f.c.dirties && x == Dropping(f, root) && !Droppable(f.c, f.order, root)
    requires Cascades(x, k, root) && k.dying == {} && root !in k.c.dirties
    ensures !Good(k)
  {
    GoodFramed(f);
    FramedKeys(f);
    GoodCounts(f, root);
    UncountFramed(f, root);
    assert Dropped(f.c.dirties, root, ZERO) == f.c.dirties;
    SameRefsCount(f.order, f.c.dirties, x.c.dirties, root);
    BadStaysBad(x, k, root);
  }

  // ----- what a removal leaves behind

  lemma DroppingEven(f: Snapshot, root: Blob)
    requires Good(f) && f.pend == multiset{} && ZERO in f.c.dirties && root in f.c.dirties[ZERO].children
    requires root != ZERO && root in f.c.dirties && ZERO !in f.order
    ensures Even(f, Dropping(f, root))
  {
    var x := Dropping(f, root);
    forall y | y in x.c.dirties
      ensures EvenAt(f, x, y)
    {
      RefsSame(f.order, f.c.dirties, x.c.dirties, y);
      if y == root && y !in f.c.disk {
        GoodCounts(f, root);
        PositiveRoot(f, root);
      }
    }
  }

  lemma PositiveRoot(f: Snapshot, root: Blob)
    requires Good(f) && ZERO in f.c.dirties && root in f.c.dirties[ZERO].children
    ensures f.c.dirties[ZERO].children[root] > 0
  {
    assert Opens(0);
  }

  lemma UnheldEven(f: Snapshot, root: Blob)
    requires root in f.c.dirties && ZERO in f.c.dirties && root !in f.c.dirties[ZERO].children && root != ZERO
    ensures EvenBut(f, Dropping(f, root), root)
  {
    var x := Dropping(f, root);
    assert SameRefs(f.c.dirties, x.c.dirties);
    forall y | y in x.c.dirties && y != root
      ensures EvenAt(f, x, y)
    {
      SameRefsCount(f.order, f.c.dirties, x.c.dirties, y);
    }
  }

  lemma EvenButTrans(f: Snapshot, g: Snapshot, k: Snapshot, root: Blob)
    requires EvenBut(f, g, root) && Even(g, k) && f.c.disk == g.c.disk
    ensures EvenBut(f, k, root)
  {
    forall x | x in k.c.dirties && x != root
      ensures EvenAt(f, k, x)
    {
      assert EvenAt(g, k, x) && EvenAt(f, g, x);
    }
  }

  /**
    After a drop that did no harm every count is down by exactly the references that are gone; only
    where the reference was not held is the count of root itself down by one more.
   */
  lemma DereferenceEven(f: Snapshot, g: Snapshot, k: Snapshot, root: Blob)
    requires Good(f) && f.pend == multiset{} && f.dying == {} && ZERO in f.c.dirties && root != ZERO
    requires Droppable(f.c, f.order, root)
    requires g == f.(c := f.c.(dirties := Dropped(f.c.dirties, root, ZERO)))
    requires Releases(g.(pend := multiset{root}), k, root) && k.pend == multiset{} && k.dying == {}
    ensures EvenBut(f, k, root) && (root in f.c.dirties[ZERO].children ==> Even(f, k))
    ensures root in k.c.dirties ==> root in f.c.dirties && k.c.dirties[root].parents + 1 == f.c.dirties[root].parents
  {
    GoodFramed(f);
    FramedKeys(f);
    if root !in f.c.dirties {
      AbsentEven(f, root);
    } else {
      var x := Dropping(f, root);
      assert multiset{root} - multiset{root} == multiset{};
      assert Released(g.(pend := multiset{root}), root) == x;
      CascadesFacts(x, k, root);
      if root in f.c.dirties[ZERO].children {
        HeldGood(f, root);
        DroppingEven(f, root);
        EvenTrans(f, x, k);
      } else {
        UnheldGood(f, root);
        UnheldEven(f, root);
        EvenButTrans(f, x, k, root);
      }
    }
  }

  lemma AbsentEven(f: Snapshot, root: Blob)
    requires ZERO in f.c.dirties && root !in f.c.dirties && ZERO !in f.order
    ensures Even(f, f.(c := f.c.(dirties := Dropped(f.c.dirties, root, ZERO))))
  {
    var k := f.(c := f.c.(dirties := Dropped(f.c.dirties, root, ZERO)));
    forall y | y in k.c.dirties
      ensures EvenAt(f, k, y)
    {
      RefsSame(f.order, f.c.dirties, k.c.dirties, y);
    }
  }
}
