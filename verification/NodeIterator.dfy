/**
  The node iterator: an explicit stack of partly processed nodes instead of recursion, loading
  nodes as it reaches them.
 */
module NodeIterator {
  import opened Encoding
  import opened Rlp
  import opened Nodes
  import opened Seal
  import opened PreOrder
  import opened KeyOrder
  import T = Trees

  /** A node being processed: the last child taken, and the length of its parent's path. */
  datatype Frame = Frame(node: Node, index: int, pathlen: nat)

  // ----- what is still to come

  function If(b: bool, vs: seq<Visit>): seq<Visit> {
    if b then vs else []
  }

  /** Visits of the children after the given index. */
  function After(t: T.Tree, index: int, p: seq<byte>): seq<Visit> {
    match t
    case Ext(k, s) => If(index < 0, Visits(s, p + k))
    case Branch(a, b, c) =>
      If(index < 0, Visits(a, p + [0])) + (If(index < 1, Visits(b, p + [1])) + If(index < 2, Visits(c, p + [2])))
    case Nil => []
    case Val(_) => []
  }

  function Here(t: T.Tree, p: seq<byte>): Visit {
    Visit(p, if t.Val? then Some(t.v) else None)
  }

  lemma VisitsSplit(t: T.Tree, p: seq<byte>)
    requires !t.Nil?
    ensures Visits(t, p) == [Here(t, p)] + After(t, -1, p)
  {
  }

  /** A node of the stack as the proof sees it. */
  datatype Mark = Mark(tree: T.Tree, index: int, path: seq<byte>)

  /** The children left at every level, innermost first. */
  function Rest(marks: seq<Mark>): seq<Visit> {
    if |marks| == 0 then []
    else var m := marks[|marks| - 1]; After(m.tree, m.index, m.path) + Rest(marks[..|marks| - 1])
  }

  function TopPath(marks: seq<Mark>): seq<byte> {
    if |marks| == 0 then [] else marks[|marks| - 1].path
  }

  ghost predicate TreeOk(t: T.Tree) {
    t.Nil? || t.Val? || T.Canon(t)
  }

  /**
    A loaded node that stands for t and whose path tells whether it is a value. If the whole trie
    can be read, so can everything below it.
   */
  ghost predicate NodeOk(db: Store, whole: bool, n: Node, t: T.Tree, top: bool, path: seq<byte>) {
    && !n.Hash? && Represents(n, t, top) && (whole ==> Backed(db, n, t)) && TreeOk(t)
    && (if t.Val? then HasTerm(path) else Bits(path))
  }

  ghost predicate FrameOk(db: Store, whole: bool, f: Frame, m: Mark, below: seq<byte>, top: bool) {
    NodeOk(db, whole, f.node, m.tree, top, m.path) && f.index == m.index >= -1 && f.pathlen == |below|
        && below <= m.path
  }

  ghost predicate FrameAt(db: Store, whole: bool, stack: seq<Frame>, marks: seq<Mark>, i: nat)
    requires i < |stack| == |marks|
  {
    FrameOk(db, whole, stack[i], marks[i], TopPath(marks[..i]), i == 0)
  }

  /** Every frame is what its mark says; FrameAt keeps the verifier from looking at all of them at once. */
  ghost predicate FramesOk(db: Store, whole: bool, stack: seq<Frame>, marks: seq<Mark>) {
    |stack| == |marks| && forall i {:trigger FrameAt(db, whole, stack, marks, i)} :: 0 <= i < |stack| ==>
        FrameAt(db, whole, stack, marks, i)
  }

  // ----- the next child of a node

  /** Index, node and path of the first child after index, if there is one. */
  datatype Next = Child(i: int, node: Node, path: seq<byte>) | NoChild

  method NextChild(f: Frame, path: seq<byte>, ghost db: Store, ghost whole: bool, ghost t: T.Tree, ghost top: bool)
    returns (r: Next, ghost c: T.Tree)
    requires NodeOk(db, whole, f.node, t, top, path) && f.index >= -1
    ensures r.NoChild? ==> After(t, f.index, path) == []
    ensures r.Child? ==> Offers(db, whole, t, f.index, path, r, c)
  {
    c := T.Nil;
    match f.node {
      case Full(_, _, _, _) =>
        var i := f.index + 1;
        while i < 3
          invariant f.index < i && After(t, f.index, path) == After(t, i - 1, path)
        {
          var child := Kid(f.node, i);
          if !child.Nil? {
            c := T.Kid(t, i);
            FullOffers(db, whole, f.node, t, top, path, i);
            r := Child(i, child, path + [i]);
            return;
          }
          assert Represents(child, T.Kid(t, i), false);
          SkipNil(t, i, path);
          i := i + 1;
        }
        r := NoChild;
      case Short(k, v, _) =>
        if f.index < 0 {
          c := t.sub;
          ShortOffers(db, whole, f.node, t, top, path, f.index);
          r := Child(0, v, path + k);
          return;
        }
        r := NoChild;
      case _ =>
        r := NoChild;
    }
  }

  /** The child found is the next to come, and stands for the subtree c. */
  ghost predicate Offers(db: Store, whole: bool, t: T.Tree, index: int, path: seq<byte>, r: Next, c: T.Tree)
    requires r.Child?
  {
    && r.i > index && Represents(r.node, c, false) && (whole ==> Backed(db, r.node, c)) && TreeOk(c) && !c.Nil?
    && (if c.Val? then HasTerm(r.path) else Bits(r.path)) && path <= r.path && |path| < |r.path|
    && After(t, index, path) == Visits(c, r.path) + After(t, r.i, path)
    && After(t, index, path) == After(t, r.i - 1, path)
  }

  lemma SkipNil(t: T.Tree, i: int, path: seq<byte>)
    requires t.Branch? && 0 <= i <= 2 && T.Kid(t, i).Nil?
    ensures After(t, i - 1, path) == After(t, i, path)
  {
  }

  lemma FullOffers(db: Store, whole: bool, n: Node, t: T.Tree, top: bool, path: seq<byte>, i: int)
    requires NodeOk(db, whole, n, t, top, path) && n.Full? && 0 <= i <= 2 && !Kid(n, i).Nil?
    ensures Offers(db, whole, t, i - 1, path, Child(i, Kid(n, i), path + [i]), T.Kid(t, i))
  {
    var c := T.Kid(t, i);
    assert Represents(Kid(n, i), c, false) && (whole ==> Backed(db, Kid(n, i), c));
    KidSlot(t, i, path);
    TakeKid(t, i, path);
  }

  lemma KidSlot(t: T.Tree, i: int, path: seq<byte>)
    requires T.Canon(t) && t.Branch? && 0 <= i <= 2 && !T.Kid(t, i).Nil? && Bits(path)
    ensures TreeOk(T.Kid(t, i)) && (if T.Kid(t, i).Val? then HasTerm(path + [i]) else Bits(path + [i]))
  {
  }

  lemma TakeKid(t: T.Tree, i: int, path: seq<byte>)
    requires t.Branch? && 0 <= i <= 2
    ensures After(t, i - 1, path) == Visits(T.Kid(t, i), path + [i]) + After(t, i, path)
  {
    var a, b, c := Visits(t.c0, path + [0]), Visits(t.c1, path + [1]), Visits(t.c2, path + [2]);
    if i == 0 {
      assert After(t, -1, path) == a + (b + c) && After(t, 0, path) == [] + (b + c) == b + c;
    } else if i == 1 {
      assert After(t, 0, path) == [] + (b + c) == b + c && After(t, 1, path) == [] + ([] + c) == c;
    } else {
      assert After(t, 1, path) == [] + ([] + c) == c && After(t, 2, path) == [];
    }
  }

  lemma ShortOffers(db: Store, whole: bool, n: Node, t: T.Tree, top: bool, path: seq<byte>, index: int)
    requires NodeOk(db, whole, n, t, top, path) && n.Short? && index == -1
    ensures Offers(db, whole, t, index, path, Child(0, n.child, path + n.key), t.sub)
  {
    T.CanonPath(t.key, t.sub);
    assert Bits(path);
    if t.sub.Val? {
      assert (path + n.key)[|path + n.key| - 1] == 2;
    }
  }

  // ----- the stack

  function SetIndex(stack: seq<Frame>, i: int): seq<Frame>
    requires |stack| > 0
  {
    stack[|stack| - 1 := stack[|stack| - 1].(index := i)]
  }

  function SetMark(marks: seq<Mark>, i: int): seq<Mark>
    requires |marks| > 0
  {
    marks[|marks| - 1 := marks[|marks| - 1].(index := i)]
  }

  lemma RestSnoc(marks: seq<Mark>, m: Mark)
    ensures Rest(marks + [m]) == After(m.tree, m.index, m.path) + Rest(marks)
  {
    assert (marks + [m])[..|marks|] == marks;
  }

  lemma RestSetMark(marks: seq<Mark>, i: int)
    requires |marks| > 0
    ensures var m := marks[|marks| - 1];
            Rest(SetMark(marks, i)) == After(m.tree, i, m.path) + Rest(marks[..|marks| - 1])
  {
    assert SetMark(marks, i)[..|marks| - 1] == marks[..|marks| - 1];
  }

  lemma FramesSetIndex(db: Store, whole: bool, stack: seq<Frame>, marks: seq<Mark>, i: int)
    requires FramesOk(db, whole, stack, marks) && |stack| > 0 && i >= -1
    ensures FramesOk(db, whole, SetIndex(stack, i), SetMark(marks, i))
  {
    var s, ms := SetIndex(stack, i), SetMark(marks, i);
    forall k | 0 <= k < |s|
      ensures FrameAt(db, whole, s, ms, k)
    {
      assert ms[..k] == marks[..k];
      assert FrameAt(db, whole, stack, marks, k);
    }
  }

  lemma FramesSnoc(db: Store, whole: bool, stack: seq<Frame>, marks: seq<Mark>, f: Frame, m: Mark)
    requires FramesOk(db, whole, stack, marks) && FrameOk(db, whole, f, m, TopPath(marks), |stack| == 0)
    ensures FramesOk(db, whole, stack + [f], marks + [m])
  {
    var s, ms := stack + [f], marks + [m];
    forall k | 0 <= k < |s|
      ensures FrameAt(db, whole, s, ms, k)
    {
      assert ms[..k] == if k < |marks| then marks[..k] else marks;
      assert k < |marks| ==> FrameAt(db, whole, stack, marks, k);
    }
  }

  lemma FramesPop(db: Store, whole: bool, stack: seq<Frame>, marks: seq<Mark>)
    requires FramesOk(db, whole, stack, marks) && |stack| > 0
    ensures FramesOk(db, whole, stack[..|stack| - 1], marks[..|stack| - 1])
    ensures var n := |stack| - 1;
            stack[n].pathlen <= |TopPath(marks)| && TopPath(marks)[..stack[n].pathlen] == TopPath(marks[..n])
  {
    FramesFront(db, whole, stack, marks, |stack| - 1);
    FrameBelow(db, whole, stack, marks, |stack| - 1);
  }

  lemma FramesFront(db: Store, whole: bool, stack: seq<Frame>, marks: seq<Mark>, n: nat)
    requires FramesOk(db, whole, stack, marks) && n <= |stack|
    ensures FramesOk(db, whole, stack[..n], marks[..n])
  {
    var s, ms := stack[..n], marks[..n];
    forall k | 0 <= k < |s|
      ensures FrameAt(db, whole, s, ms, k)
    {
      assert ms[..k] == marks[..k];
      assert FrameAt(db, whole, stack, marks, k);
    }
  }

  lemma FrameBelow(db: Store, whole: bool, stack: seq<Frame>, marks: seq<Mark>, n: nat)
    requires FramesOk(db, whole, stack, marks) && n < |stack|
    ensures stack[n].pathlen <= |marks[n].path| && marks[n].path[..stack[n].pathlen] == TopPath(marks[..n])
  {
    assert FrameAt(db, whole, stack, marks, n);
  }

  lemma TopFrame(db: Store, whole: bool, stack: seq<Frame>, marks: seq<Mark>)
    requires FramesOk(db, whole, stack, marks) && |stack| > 0
    ensures var n := |stack| - 1;
            NodeOk(db, whole, stack[n].node, marks[n].tree, n == 0, TopPath(marks))
                && stack[n].index == marks[n].index >= -1
  {
    assert FrameAt(db, whole, stack, marks, |stack| - 1);
  }

  /** A node on offer: loaded, standing for c, and the first of what is still to come. */
  ghost predicate Offered(db: Store, whole: bool, marks: seq<Mark>, n: Node, p: seq<byte>, c: T.Tree) {
    && |marks| > 0 && NodeOk(db, whole, n, c, false, p) && !c.Nil? && TopPath(marks) <= p
    && Rest(marks) == [Here(c, p)] + (After(c, -1, p) + Rest(SetMark(marks, marks[|marks| - 1].index + 1)))
  }

  /** The index of the top frame moves to just before the child that is offered. */
  lemma OfferFound(db: Store, whole: bool, marks: seq<Mark>, r: Next, n: Node, c: T.Tree)
    requires |marks| > 0 && r.Child?
    requires Offers(db, whole, marks[|marks| - 1].tree, marks[|marks| - 1].index, TopPath(marks), r, c)
        && NodeOk(db, whole, n, c, false, r.path)
    ensures Offered(db, whole, SetMark(marks, r.i - 1), n, r.path, c)
    ensures Rest(SetMark(marks, r.i - 1)) == Rest(marks)
  {
    var m := marks[|marks| - 1];
    var m1 := SetMark(marks, r.i - 1);
    var below := Rest(marks[..|marks| - 1]);
    assert SetMark(m1, r.i) == SetMark(marks, r.i);
    RestSetMark(marks, r.i - 1);
    RestSetMark(marks, r.i);
    VisitsSplit(c, r.path);
    OfferArith(After(m.tree, m.index, m.path), Here(c, r.path), After(c, -1, r.path), After(m.tree, r.i, m.path),
        below);
  }

  lemma OfferArith(all: seq<Visit>, h: Visit, a: seq<Visit>, b: seq<Visit>, below: seq<Visit>)
    requires all == ([h] + a) + b
    ensures all + below == [h] + (a + (b + below))
  {
  }

  ghost predicate TrieOk(db: Store, root: Node, tree: T.Tree) {
    StoreOk(db) && Represents(root, tree, true) && T.Root(tree)
  }

  /** All visits of a trie; an empty trie has one, of nothing. */
  function AllVisits(t: T.Tree): seq<Visit> {
    if t.Nil? then [Visit([], None)] else Visits(t, [])
  }

  function Front(marks: seq<Mark>): seq<Mark> {
    if |marks| == 0 then [] else marks[..|marks| - 1]
  }

  /** Lost: the node could not be loaded. */
  datatype Found = Found(node: Node, path: seq<byte>) | End | Lost(hash: Blob)

  /** Missing: a node could not be loaded; SeekFailed: the same while looking for a prefix. */
  datatype Status = Fine | Ended | Missing(hash: Blob) | SeekFailed(prefix: seq<byte>, hash: Blob)

  // ----- the iterator as a value

  /**
    whole says whether every node of the trie can be read; left is what the stack still has to offer,
    under the same without its top node.
   */
  datatype View = View(
    db: Store, root: Node, tree: T.Tree, whole: bool, all: seq<Visit>,
    stack: seq<Frame>, marks: seq<Mark>, left: seq<Visit>, under: seq<Visit>)

  ghost predicate Right(v: View) {
    && TrieOk(v.db, v.root, v.tree) && (v.whole ==> Backed(v.db, v.root, v.tree)) && v.all == AllVisits(v.tree)
    && FramesOk(v.db, v.whole, v.stack, v.marks) && v.left == Rest(v.marks) && v.under == Rest(Front(v.marks))
  }

  /** Right, sealed. */
  ghost predicate Sound(v: View) {
    |v.stack| == |v.marks| && forall key :: Opens(key) ==> Right(v)
  }

  /** What is still to come, as long as the end has not been reached. */
  ghost function Pending(v: View): seq<Visit> {
    if |v.marks| == 0 then v.all else v.left
  }

  /** A node that may be pushed, the root or a child of the top node; sealed. */
  ghost predicate MayPush(v: View, n: Node, p: seq<byte>, c: T.Tree) {
    forall key :: Opens(key) ==>
      if |v.marks| == 0 then p == [] && c == v.tree && NodeOk(v.db, v.whole, n, v.tree, true, [])
      else Offered(v.db, v.whole, v.marks, n, p, c)
  }

  lemma SoundSorted(v: View)
    requires Sound(v)
    ensures Sorted(v.all) && |v.all| > 0
  {
    assert Opens(0);
    VisitsSorted(v.tree, []);
    if !v.tree.Nil? {
      VisitsSplit(v.tree, []);
    }
  }

  /** The top node is popped. */
  lemma PopSound(v: View) returns (u: seq<Visit>)
    requires Sound(v) && |v.stack| > 0
    ensures Sound(v.(stack := v.stack[..|v.stack| - 1], marks := Front(v.marks), left := v.under, under := u))
    ensures var n := v.stack[|v.stack| - 1].pathlen;
            n <= |TopPath(v.marks)| && TopPath(v.marks)[..n] == TopPath(Front(v.marks))
  {
    assert Opens(0);
    FramesPop(v.db, v.whole, v.stack, v.marks);
    u := Rest(Front(Front(v.marks)));
  }

  /** The index of the top node is i. */
  ghost function Moved(v: View, i: int): View
    requires |v.stack| > 0 && |v.marks| > 0
  {
    v.(stack := SetIndex(v.stack, i), marks := SetMark(v.marks, i))
  }

  /** The child found at the top node; sealed. */
  ghost predicate Offering(v: View, next: Next, c: T.Tree)
    requires |v.marks| > 0
  {
    forall key :: Opens(key) ==>
      && next.Child? && next.i >= 0
      && Offers(v.db, v.whole, v.marks[|v.marks| - 1].tree, v.marks[|v.marks| - 1].index, TopPath(v.marks), next, c)
  }

  method TopNext(f: Frame, path: seq<byte>, ghost v: View) returns (next: Next, ghost c: T.Tree)
    requires Sound(v) && |v.stack| > 0 && f == v.stack[|v.stack| - 1] && path == TopPath(v.marks)
    ensures if next.NoChild? then v.left == v.under else Offering(v, next, c)
  {
    assert Opens(0);
    TopFrame(v.db, v.whole, v.stack, v.marks);
    next, c := NextChild(f, path, v.db, v.whole, v.marks[|v.marks| - 1].tree, |v.stack| == 1);
  }

  /** A child loaded, if that was possible; sealed. */
  ghost predicate LoadedAs(v: View, next: Next, r: Found, c: T.Tree) {
    forall key :: Opens(key) ==>
      if r.Found? then next.Child? && r.path == next.path && NodeOk(v.db, v.whole, r.node, c, false, next.path)
      else r.Lost? && !v.whole && r.hash !in v.db
  }

  method LoadNext(db: Store, next: Next, ghost v: View, ghost c: T.Tree) returns (r: Found)
    requires Sound(v) && |v.stack| > 0 && db == v.db && next.Child? && Offering(v, next, c)
    ensures !r.End? && LoadedAs(v, next, r, c)
  {
    assert Opens(0);
    r := LoadNode(db, v.whole, next.node, c, false, next.path);
  }

  /** With the index moved to just before the child, nothing is lost. */
  lemma MovedSound(v: View, next: Next, c: T.Tree)
    requires Sound(v) && |v.stack| > 0 && next.Child? && Offering(v, next, c)
    ensures Sound(Moved(v, next.i - 1)) && v.left != []
  {
    assert Opens(0);
    FramesSetIndex(v.db, v.whole, v.stack, v.marks, next.i - 1);
    MovedRest(v, next, c);
  }

  lemma MovedRest(v: View, next: Next, c: T.Tree)
    requires |v.marks| > 0 && next.Child?
    requires Offers(v.db, v.whole, v.marks[|v.marks| - 1].tree, v.marks[|v.marks| - 1].index, TopPath(v.marks), next, c)
    ensures Rest(SetMark(v.marks, next.i - 1)) == Rest(v.marks) != []
        && Front(SetMark(v.marks, next.i - 1)) == Front(v.marks)
  {
    RestSetMark(v.marks, next.i - 1);
    VisitsSplit(c, next.path);
    assert Front(SetMark(v.marks, next.i - 1)) == Front(v.marks);
  }

  /** A child that has been loaded may be pushed then. */
  lemma MovedPush(v: View, next: Next, r: Found, c: T.Tree)
    requires |v.stack| > 0 && |v.marks| > 0 && Offering(v, next, c) && LoadedAs(v, next, r, c)
    requires next.Child? && r.Found?
    ensures MayPush(Moved(v, next.i - 1), r.node, r.path, c)
  {
    OfferingFacts(v, next, c);
    LoadedFacts(v, next, r, c);
    OfferFound(v.db, v.whole, v.marks, next, r.node, c);
    MayPushChild(Moved(v, next.i - 1), r.node, r.path, c);
  }

  lemma OfferingFacts(v: View, next: Next, c: T.Tree)
    requires |v.marks| > 0 && Offering(v, next, c)
    ensures next.Child? && next.i >= 0
    ensures Offers(v.db, v.whole, v.marks[|v.marks| - 1].tree, v.marks[|v.marks| - 1].index, TopPath(v.marks), next, c)
  {
    assert Opens(0);
  }

  lemma LoadedFacts(v: View, next: Next, r: Found, c: T.Tree)
    requires LoadedAs(v, next, r, c)
    ensures r.Found? ==> next.Child? && r.path == next.path && NodeOk(v.db, v.whole, r.node, c, false, next.path)
    ensures r.Lost? ==> !v.whole && r.hash !in v.db
  {
    assert Opens(0);
  }

  lemma MayPushChild(v: View, n: Node, p: seq<byte>, c: T.Tree)
    requires |v.marks| > 0 && Offered(v.db, v.whole, v.marks, n, p, c)
    ensures MayPush(v, n, p, c)
  {
  }

  /** The next child of the top node, loaded if that is possible; i is the index just before it. */
  method OfferFrom(db: Store, f: Frame, path: seq<byte>, ghost v: View) returns (r: Found, i: int, ghost c: T.Tree)
    requires Sound(v) && |v.stack| > 0 && db == v.db && f == v.stack[|v.stack| - 1] && path == TopPath(v.marks)
    ensures r.End? ==> v.left == v.under
    ensures !r.End? ==> Sound(Moved(v, i)) && v.left != []
    ensures r.Found? ==> MayPush(Moved(v, i), r.node, r.path, c)
    ensures r.Lost? ==> !v.whole && r.hash !in db
  {
    var next;
    next, c := TopNext(f, path, v);
    if next.NoChild? {
      return End, 0, c;
    }
    r := LoadNext(db, next, v, c);
    MovedSound(v, next, c);
    LoadedFacts(v, next, r, c);
    if r.Found? {
      MovedPush(v, next, r, c);
    }
    i := next.i - 1;
  }

  method OfferRoot(db: Store, root: Node, ghost v: View) returns (r: Found)
    requires Sound(v) && |v.stack| == 0 && db == v.db && root == v.root
    ensures !r.End? && (r.Lost? ==> !v.whole && r.hash !in db)
    ensures r.Found? ==> MayPush(v, r.node, r.path, v.tree)
  {
    assert Opens(0);
    r := LoadNode(db, v.whole, root, v.tree, true, []);
  }

  /** One more child of the top node has been taken. */
  function CountedMarks(marks: seq<Mark>): seq<Mark> {
    if |marks| == 0 then marks else SetMark(marks, marks[|marks| - 1].index + 1)
  }

  function CountedFrames(stack: seq<Frame>): seq<Frame> {
    if |stack| == 0 then stack else SetIndex(stack, stack[|stack| - 1].index + 1)
  }

  /** What a push makes of the iterator: the first of what is to come has been taken. */
  lemma PushSound(v: View, n: Node, p: seq<byte>, c: T.Tree) returns (w: View)
    requires Sound(v) && MayPush(v, n, p, c)
    ensures Pending(v) == [Here(c, p)] + w.left && Sound(w)
    ensures w == v.(stack := CountedFrames(v.stack) + [Frame(n, -1, |TopPath(v.marks)|)],
                    marks := CountedMarks(v.marks) + [Mark(c, -1, p)], left := w.left, under := w.under)
  {
    assert Opens(0);
    var ms, m := CountedMarks(v.marks), Mark(c, -1, p);
    w := v.(stack := CountedFrames(v.stack) + [Frame(n, -1, |TopPath(v.marks)|)], marks := ms + [m],
            left := Rest(ms + [m]), under := Rest(ms));
    assert Front(ms + [m]) == ms;
    RestSnoc(ms, m);
    PushFrames(v, n, p, c);
    if |v.marks| == 0 {
      FirstRest(v.tree);
      assert ms + [m] == [m];
    }
  }

  lemma CountedFramesOk(db: Store, whole: bool, stack: seq<Frame>, marks: seq<Mark>)
    requires FramesOk(db, whole, stack, marks)
    ensures FramesOk(db, whole, CountedFrames(stack), CountedMarks(marks))
        && TopPath(CountedMarks(marks)) == TopPath(marks)
  {
    if |stack| > 0 {
      TopFrame(db, whole, stack, marks);
      FramesSetIndex(db, whole, stack, marks, marks[|marks| - 1].index + 1);
    }
  }

  lemma PushFrames(v: View, n: Node, p: seq<byte>, c: T.Tree)
    requires FramesOk(v.db, v.whole, v.stack, v.marks)
    requires if |v.marks| == 0 then p == [] && NodeOk(v.db, v.whole, n, c, true, p)
             else TopPath(v.marks) <= p && NodeOk(v.db, v.whole, n, c, false, p)
    ensures FramesOk(v.db, v.whole, CountedFrames(v.stack) + [Frame(n, -1, |TopPath(v.marks)|)],
                     CountedMarks(v.marks) + [Mark(c, -1, p)])
  {
    CountedFramesOk(v.db, v.whole, v.stack, v.marks);
    FramesSnoc(v.db, v.whole, CountedFrames(v.stack), CountedMarks(v.marks), Frame(n, -1, |TopPath(v.marks)|),
        Mark(c, -1, p));
  }

  /** The top node: values and only they are at the end of a whole key. */
  lemma SoundTop(v: View)
    requires Sound(v) && |v.stack| > 0
    ensures var n, m := v.stack[|v.stack| - 1].node, v.marks[|v.marks| - 1];
            (HasTerm(m.path) <==> m.tree.Val?) && (m.tree.Val? ==> n == Value(m.tree.v))
  {
    assert Opens(0);
    TopFrame(v.db, v.whole, v.stack, v.marks);
    BitsNoTerm(TopPath(v.marks));
  }

  /** The children left at the top node are all before a key that its path has left behind. */
  lemma TopKids(v: View, key: seq<byte>) returns (skipped: seq<Visit>)
    requires Sound(v) && |v.stack| > 0 && Before(TopPath(v.marks), key) && !(TopPath(v.marks) <= key)
    ensures v.left == skipped + v.under && AllBefore(skipped, key)
  {
    assert Opens(0);
    var m := v.marks[|v.marks| - 1];
    skipped := After(m.tree, m.index, m.path);
    TopFrame(v.db, v.whole, v.stack, v.marks);
    AfterUnder(m.tree, m.index, m.path);
    SkippedBefore(skipped, m.path, key);
  }

  function From(all: seq<Visit>, j: nat): seq<Visit>
    requires j <= |all|
  {
    if j == 0 then all else all[j..]
  }

  // ----- the iterator

  class NodeIterator {
    const db: Store
    const root: Node
    ghost const tree: T.Tree
    ghost const whole: bool
    ghost const all: seq<Visit>
    var stack: seq<Frame>
    var path: seq<byte>
    var err: Status
    ghost var marks: seq<Mark>
    ghost var left: seq<Visit>
    ghost var under: seq<Visit>
    ghost var passed: nat     // nodes passed or skipped by a seek
    ghost var goal: seq<byte> // the path a seek looks for

    ghost function Now(): View
      reads this
    {
      View(db, root, tree, whole, all, stack, marks, left, under)
    }

    ghost predicate Valid()
      reads this
    {
      && Sound(Now()) && path == TopPath(marks) && (err.Ended? ==> |stack| == 0)
      && (err.SeekFailed? ==> !whole && IsKey(goal, err.prefix) && Seeking(goal))
    }

    /** The visits still to come. */
    ghost function Todo(): seq<Visit>
      reads this
    {
      if err.Ended? then [] else Pending(Now())
    }

    /** The same if the children of the current node may be skipped. */
    ghost function Coming(descend: bool): seq<Visit>
      reads this
    {
      if descend || err.Ended? || |marks| == 0 then Todo() else under
    }

    constructor (store: Store, n: Node, ghost t: T.Tree)
      requires TrieOk(store, n, t)
      ensures Valid() && tree == t && db == store && root == n && err.Fine? && |stack| == 0 && Todo() == all
      ensures whole == Backed(store, n, t) && all == AllVisits(t)
    {
      db, root, tree, whole, all := store, n, t, Backed(store, n, t), AllVisits(t);
      stack, path, err, marks, left, under, passed, goal := [], [], Fine, [], [], [], 0, [];
    }

    /** The node being visited. */
    ghost function Current(): Visit
      requires |marks| > 0
      reads this
    {
      Here(marks[|marks| - 1].tree, path)
    }

    method Pop()
      requires Valid() && err.Fine? && |stack| > 0
      modifies `stack, `path, `marks, `left, `under
      ensures Valid() && |stack| == old(|stack|) - 1 && path <= old(path) && left == old(under)
    {
      ghost var u := PopSound(Now());
      path := path[..stack[|stack| - 1].pathlen];
      stack := stack[..|stack| - 1];
      marks, left, under := Front(marks), under, u;
    }

    /** A node that could not be loaded is still to come, not in the store, and keeps the trie from being whole. */
    ghost predicate Lacks(r: Found)
      reads this
    {
      r.Lost? ==> !whole && r.hash !in db && Todo() != []
    }

    /** Finds the next node to visit, giving up nodes without further children on the way. */
    method Peek(descend: bool) returns (r: Found, ghost c: T.Tree)
      requires Valid() && err.Fine?
      modifies `stack, `path, `marks, `left, `under
      ensures Valid() && path <= old(path) && Lacks(r) && (!r.End? ==> (|stack| == 0 <==> old(|stack|) == 0))
      ensures if r.End? then |stack| == 0 && old(Coming(descend)) == [] else Todo() == old(Coming(descend))
      ensures r.Found? ==> MayPush(Now(), r.node, r.path, c)
    {
      if |stack| == 0 {
        SoundSorted(Now());
        r := OfferRoot(db, root, Now());
        return r, tree;
      }
      if !descend {
        Pop();
      }
      r, c := Advance();
    }

    method Advance() returns (r: Found, ghost c: T.Tree)
      requires Valid() && err.Fine?
      modifies `stack, `path, `marks, `left, `under
      ensures Valid() && left == old(left) && path <= old(path) && Lacks(r)
      ensures if r.End? then |stack| == 0 && left == [] else |stack| > 0
      ensures r.Found? ==> MayPush(Now(), r.node, r.path, c)
    {
      c := T.Nil;
      while |stack| > 0
        invariant Valid() && left == old(left) && path <= old(path)
        decreases |stack|
      {
        r, c := OfferOrPop();
        if !r.End? {
          return;
        }
      }
      NothingLeft(Now());
      r := End;
    }

    /** The next child of the top node, if it has one; a child that cannot be loaded stays the next one. */
    method OfferOrPop() returns (r: Found, ghost c: T.Tree)
      requires Valid() && err.Fine? && |stack| > 0
      modifies `stack, `path, `marks, `left, `under
      ensures Valid() && left == old(left) && path <= old(path) && Lacks(r)
      ensures |stack| == old(|stack|) - if r.End? then 1 else 0
      ensures r.Found? ==> MayPush(Now(), r.node, r.path, c)
    {
      var i;
      r, i, c := OfferFrom(db, stack[|stack| - 1], path, Now());
      if r.End? {
        Pop();
      } else {
        stack, marks := SetIndex(stack, i), SetMark(marks, i);
      }
    }

    method Push(n: Node, p: seq<byte>, ghost c: T.Tree)
      requires Valid() && err.Fine? && MayPush(Now(), n, p, c)
      modifies `stack, `path, `marks, `left, `under
      ensures Valid() && |stack| > 0 && path == p && old(Todo()) == [Current()] + Todo()
    {
      ghost var w := PushSound(Now(), n, p, c);
      if |stack| > 0 {
        stack := SetIndex(stack, stack[|stack| - 1].index + 1);
      }
      stack := stack + [Frame(n, -1, |path|)];
      path := p;
      marks, left, under := w.marks, w.left, w.under;
      assert Now() == w;
    }

    /**
      What a step to the next of coming amounts to: on to it; or the end; or a node that cannot be
      loaded, with nothing passed over, so that a later step tries it again.
     */
    ghost predicate Stepped(coming: seq<Visit>, ok: bool)
      reads this
    {
      && (ok ==> err.Fine? && |marks| > 0 && coming == [Current()] + Todo())
      && (!ok ==> if err.Missing? then !whole && err.hash !in db && Todo() == coming != []
                  else err.Ended? && coming == [])
    }

    /**
      Moves to the next node of the pre-order; without descend, past the children of the current one.
      A seek that failed is taken up again first.
     */
    method Next(descend: bool) returns (ok: bool)
      requires Valid()
      modifies `stack, `path, `marks, `left, `under, `err, `passed
      ensures Valid()
      ensures !old(err.SeekFailed?) ==> Stepped(old(Coming(descend)), ok)
      ensures old(err.SeekFailed?) ==> if err.SeekFailed? then !ok && Sought(old(err).prefix)
                                       else descend ==> SteppedFrom(old(err).prefix, ok)
    {
      if err.SeekFailed? {
        ok := Resume(descend);
      } else if err.Ended? {
        ok := false;
      } else {
        err := Fine;
        ok := Step(descend);
      }
    }

    /** A step to the first node that is not before the prefix. */
    ghost predicate SteppedFrom(prefix: seq<byte>, ok: bool)
      reads this
    {
      IsKey(goal, prefix) && exists j :: 0 <= j <= |all| && Splits(all, j, goal) && Stepped(From(all, j), ok)
    }

    method Resume(descend: bool) returns (ok: bool)
      requires Valid() && err.SeekFailed?
      modifies `stack, `path, `marks, `left, `under, `err, `passed
      ensures Valid()
      ensures if err.SeekFailed? then !ok && Sought(old(err).prefix) else descend ==> SteppedFrom(old(err).prefix, ok)
    {
      var prefix := err.prefix;
      err := Fine;
      SeekOn(prefix);
      ghost var j := passed;
      ok := false;
      if err.Fine? {
        ok := Step(descend);
      }
      assert !err.SeekFailed? && descend ==> Splits(all, j, goal) && Stepped(From(all, j), ok);
    }

    method Step(descend: bool) returns (ok: bool)
      requires Valid() && err.Fine?
      modifies `stack, `path, `marks, `left, `under, `err
      ensures Valid() && !err.SeekFailed? && Stepped(old(Coming(descend)), ok)
    {
      var r, c := Peek(descend);
      match r {
        case End =>
          err := Ended;
          ok := false;
        case Lost(h) =>
          err := Status.Missing(h);
          ok := false;
        case Found(n, p) =>
          Push(n, p, c);
          ok := true;
      }
    }

    // ----- seeking

    /** Moves to just before the first node whose path is not before the bits of prefix. */
    method Seek(prefix: seq<byte>)
      requires Valid() && err.Fine? && |stack| == 0
      modifies `stack, `path, `marks, `left, `under, `err, `passed, `goal
      ensures Valid() && Sought(prefix) && (whole ==> !err.SeekFailed?)
    {
      passed, goal := 0, UnpackAll(prefix);
      SeekOn(prefix);
    }

    /** Where a seek ends: just before the first node not before the prefix, or at a node that cannot be loaded. */
    ghost predicate Sought(prefix: seq<byte>)
      reads this
    {
      && passed <= |all| && !err.Missing? && (if err.Ended? then passed == |all| else AtPlace())
      && IsKey(goal, prefix)
      && if err.SeekFailed? then err.prefix == prefix && err.hash !in db else Splits(all, passed, goal)
    }

    /** The seek has come as far as passed says. */
    ghost predicate AtPlace()
      reads this
    {
      if |marks| == 0 then passed == 0 else passed <= |all| && left == From(all, passed)
    }

    /** Everything passed so far is before the key. */
    ghost predicate Seeking(key: seq<byte>)
      reads this
    {
      && !err.Ended? && passed <= |all| && AtPlace() && AllBefore(all[..passed], key)
      && (|stack| > 0 ==> Before(path, key))
    }

    method SeekOn(prefix: seq<byte>)
      requires Valid() && err.Fine? && IsKey(goal, prefix) && Seeking(goal)
      modifies `stack, `path, `marks, `left, `under, `err, `passed
      ensures Valid() && Sought(prefix)
    {
      var key := PrefixBits(prefix, goal);
      SoundSorted(Now());
      var going := true;
      while going
        invariant Valid() && passed <= |all| && IsKey(goal, prefix)
        invariant if going then err.Fine? && Seeking(goal) else Sought(prefix)
        decreases |all| - passed, going
      {
        going := SeekStep(prefix, key);
      }
    }

    method SeekStep(prefix: seq<byte>, key: seq<byte>) returns (going: bool)
      requires Valid() && err.Fine? && Seeking(goal) && key == goal && IsKey(goal, prefix) && Sorted(all)
      modifies `stack, `path, `marks, `left, `under, `err, `passed
      ensures Valid() && passed <= |all|
      ensures if going then err.Fine? && passed > old(passed) && Seeking(goal)
          else passed >= old(passed) && Sought(prefix)
    {
      var r, c := PeekPast(key);
      match r {
        case End =>
          assert all[..passed] == all;
          err := Ended;
          going := false;
        case Lost(h) =>
          err := SeekFailed(prefix, h);
          going := false;
        case Found(n, p) =>
          going := Before(p, key);
          if going {
            PushPast(n, p, c, key);
          } else {
            SplitAt(all, passed, p, key);
          }
      }
    }

    method PushPast(n: Node, p: seq<byte>, ghost c: T.Tree, key: seq<byte>)
      requires Valid() && err.Fine? && MayPush(Now(), n, p, c) && Seeking(key)
      requires passed < |all| && all[passed].path == p && Before(p, key)
      modifies `stack, `path, `marks, `left, `under, `passed
      ensures Valid() && passed == old(passed) + 1 && Seeking(key)
    {
      ghost var k := if |stack| == 0 then 0 else passed;
      Push(n, p, c);
      PassOne(all, k, Current(), left, key);
      passed := k + 1;
    }

    /** Finds the next node, not descending where the path has left the key. */
    method PeekPast(key: seq<byte>) returns (r: Found, ghost c: T.Tree)
      requires Valid() && err.Fine? && Seeking(key)
      modifies `stack, `path, `marks, `left, `under, `passed
      ensures Valid() && old(passed) <= passed <= |all| && AllBefore(all[..passed], key) && Lacks(r)
      ensures if r.End? then |stack| == 0 && passed == |all| else Seeking(key)
      ensures r.Found? ==> MayPush(Now(), r.node, r.path, c) && passed < |all| && all[passed].path == r.path
    {
      var descend := path <= key;
      ghost var p := path;
      ghost var j := SkipTo(descend, key);
      r, c := Peek(descend);
      passed := j;
      if |stack| > 0 {
        PrefixBefore(path, p, key);
      }
      if r.Found? {
        HeadOf(r, c);
      }
    }

    /** Skipping the children of a node whose path has left the key skips nothing that is wanted. */
    lemma SkipTo(descend: bool, key: seq<byte>) returns (j: nat)
      requires Valid() && err.Fine? && Seeking(key)
      requires descend <==> path <= key
      ensures passed <= j <= |all| && AllBefore(all[..j], key)
      ensures if |stack| == 0 then j == 0 else Coming(descend) == all[j..]
    {
      j := passed;
      if !descend && |stack| > 0 {
        j := SkipTop(Now(), passed, key);
      }
    }

    /** What is found is the first of what is to come. */
    lemma HeadOf(r: Found, c: T.Tree)
      requires Valid() && err.Fine? && r.Found? && MayPush(Now(), r.node, r.path, c)
      ensures |Todo()| > 0 && Todo()[0].path == r.path
    {
      var w := PushSound(Now(), r.node, r.path, c);
    }

    method Leaf() returns (r: bool)
      requires Valid() && |stack| > 0
      ensures r <==> Current().value.Some?
    {
      SoundTop(Now());
      r := |path| > 0 && path[|path| - 1] == 2;
    }

    method LeafBlob() returns (v: Blob)
      requires Valid() && |stack| > 0 && Current().value.Some?
      ensures Some(v) == Current().value
    {
      SoundTop(Now());
      v := stack[|stack| - 1].node.v;
    }
  }

  /** Skipping the children of the top node skips nothing that is wanted. */
  lemma SkipTop(v: View, k: nat, key: seq<byte>) returns (j: nat)
    requires Sound(v) && |v.stack| > 0 && k <= |v.all| && v.left == v.all[k..] && AllBefore(v.all[..k], key)
    requires Before(TopPath(v.marks), key) && !(TopPath(v.marks) <= key)
    ensures k <= j <= |v.all| && v.under == v.all[j..] && AllBefore(v.all[..j], key)
  {
    var skipped := TopKids(v, key);
    j := k + |skipped|;
    SkipArith(v.all, k, skipped, v.under, key);
  }

  lemma NothingLeft(v: View)
    requires Sound(v) && |v.marks| == 0
    ensures v.left == []
  {
    assert Opens(0);
  }

  /** The bits of a prefix; sealed. */
  ghost predicate IsKey(goal: seq<byte>, prefix: seq<byte>) {
    forall key :: Opens(key) ==> goal == UnpackAll(prefix)
  }

  lemma KeyIs(goal: seq<byte>, prefix: seq<byte>)
    requires IsKey(goal, prefix)
    ensures goal == UnpackAll(prefix)
  {
    assert Opens(0);
  }

  method PrefixBits(prefix: seq<byte>, ghost goal: seq<byte>) returns (key: seq<byte>)
    requires IsKey(goal, prefix)
    ensures key == goal
  {
    assert Opens(0);
    var bits := KeybytesToBinary(prefix);
    key := bits[..|bits| - 1];
  }

  /** A path above one that is before the key is before it too. */
  lemma PrefixBefore(a: seq<byte>, p: seq<byte>, key: seq<byte>)
    requires a <= p && Before(p, key)
    ensures Before(a, key)
  {
    if Less(p, key) {
      var m := PrefixLen(p, key);
      if m < |a| {
        assert a[..m] == p[..m] == key[..m];
        LessAt(a, key, m);
      } else {
        assert a == p[..m][..|a|] == key[..m][..|a|];
      }
    }
  }

  ghost predicate AllBefore(vs: seq<Visit>, key: seq<byte>) {
    forall i :: 0 <= i < |vs| ==> Before(vs[i].path, key)
  }

  /** The first k visits are before the key, the others are not. */
  ghost predicate Splits(vs: seq<Visit>, k: nat, key: seq<byte>)
    requires k <= |vs|
  {
    AllBefore(vs[..k], key) && forall i :: k <= i < |vs| ==> !Before(vs[i].path, key)
  }

  lemma AllSorted(t: T.Tree)
    requires T.Root(t)
    ensures Sorted(AllVisits(t))
  {
    VisitsSorted(t, []);
  }

  lemma AfterUnder(t: T.Tree, index: int, p: seq<byte>)
    requires TreeOk(t) && index >= -1
    ensures PreOrder.Under(After(t, index, p), p)
  {
    match t
    case Nil =>
    case Val(_) =>
    case Ext(k, s) => KidUnder(s, p, k);
    case Branch(a, b, c) =>
      KidUnder(a, p, [0]);
      KidUnder(b, p, [1]);
      KidUnder(c, p, [2]);
      var x, y, z := Visits(a, p + [0]), Visits(b, p + [1]), Visits(c, p + [2]);
      UnderAll(If(index < 0, x), If(index < 1, y), If(index < 2, z), p);
  }

  lemma KidUnder(t: T.Tree, p: seq<byte>, k: seq<byte>)
    requires TreeOk(t)
    ensures PreOrder.Under(Visits(t, p + k), p)
  {
    VisitsSorted(t, p + k);
    UnderLonger(Visits(t, p + k), p, k);
  }

  lemma UnderAll(x: seq<Visit>, y: seq<Visit>, z: seq<Visit>, p: seq<byte>)
    requires PreOrder.Under(x, p) && PreOrder.Under(y, p) && PreOrder.Under(z, p)
    ensures PreOrder.Under(x + (y + z), p)
  {
  }

  lemma SkippedBefore(vs: seq<Visit>, p: seq<byte>, key: seq<byte>)
    requires PreOrder.Under(vs, p) && Before(p, key) && !(p <= key)
    ensures AllBefore(vs, key)
  {
    forall i | 0 <= i < |vs|
      ensures Before(vs[i].path, key)
    {
      LessUnder(p, vs[i].path, key, key);
    }
  }

  lemma SkipArith(all: seq<Visit>, k: nat, skipped: seq<Visit>, rest: seq<Visit>, key: seq<byte>)
    requires k <= |all| && all[k..] == skipped + rest && AllBefore(all[..k], key) && AllBefore(skipped, key)
    ensures k + |skipped| <= |all| && rest == all[k + |skipped|..] && AllBefore(all[..k + |skipped|], key)
  {
    var j := k + |skipped|;
    assert all == all[..k] + (skipped + rest);
    forall i | 0 <= i < j
      ensures Before(all[..j][i].path, key)
    {
      if i < k {
        assert all[..k][i] == all[..j][i];
      } else {
        assert skipped[i - k] == all[..j][i];
      }
    }
  }

  lemma PassOne(all: seq<Visit>, j: nat, v: Visit, rest: seq<Visit>, key: seq<byte>)
    requires j < |all| && (if j == 0 then all else all[j..]) == [v] + rest
    requires AllBefore(all[..j], key) && Before(all[j].path, key)
    ensures rest == all[j + 1..] && AllBefore(all[..j + 1], key)
  {
    TakeHead(all, j, key);
  }

  lemma TakeHead(all: seq<Visit>, j: nat, key: seq<byte>)
    requires j < |all| && AllBefore(all[..j], key) && Before(all[j].path, key)
    ensures AllBefore(all[..j + 1], key) && all[j..][1..] == all[j + 1..]
  {
    assert all[..j + 1] == all[..j] + [all[j]];
  }

  lemma BeforeTrans(a: seq<byte>, b: seq<byte>, c: seq<byte>)
    requires Before(a, b) && Before(b, c)
    ensures Before(a, c)
  {
    if Less(a, b) && Less(b, c) {
      LessTrans(a, b, c);
    } else if Less(a, b) {
      LessUnder(a, a, b, c);
    } else if Less(b, c) {
      var m := PrefixLen(b, c);
      if m < |a| {
        assert a[..m] == b[..m];
        LessAt(a, c, m);
      } else {
        assert a == b[..|a|] == b[..m][..|a|] == c[..m][..|a|];
        assert a <= c;
      }
    }
  }

  lemma SplitAt(all: seq<Visit>, j: nat, p: seq<byte>, key: seq<byte>)
    requires Sorted(all) && j < |all| && all[j].path == p && !Before(p, key) && AllBefore(all[..j], key)
    ensures Splits(all, j, key)
  {
    forall i | j <= i < |all|
      ensures !Before(all[i].path, key)
    {
      if i > j && Before(all[i].path, key) {
        BeforeTrans(p, all[i].path, key);
      }
    }
  }

  lemma BitsNoTerm(p: seq<byte>)
    ensures Bits(p) ==> !HasTerm(p)
  {
  }

  /** Loads a node behind a hash. */
  method LoadNode(db: Store, ghost whole: bool, n: Node, ghost t: T.Tree, ghost top: bool, path: seq<byte>)
      returns (r: Found)
    requires StoreOk(db) && Represents(n, t, top) && (whole ==> Backed(db, n, t)) && TreeOk(t)
    requires if t.Val? then HasTerm(path) else Bits(path)
    ensures !r.End? && (r.Lost? ==> !whole && r.hash !in db)
    ensures r.Found? ==> r.path == path && NodeOk(db, whole, r.node, t, top, path)
  {
    if n.Hash? {
      ResolveRepresents(db, n.h, t, top);
      var m := Resolve(db, n.h);
      if m.Missing? {
        return Lost(n.h);
      }
      return Found(m.value, path);
    }
    r := Found(n, path);
  }

  lemma FirstRest(t: T.Tree)
    ensures (if t.Nil? then [Visit([], None)] else Visits(t, [])) == [Here(t, [])] + Rest([Mark(t, -1, [])])
  {
    RestSnoc([], Mark(t, -1, []));
    assert [] + [Mark(t, -1, [])] == [Mark(t, -1, [])];
    if !t.Nil? {
      VisitsSplit(t, []);
    }
  }
}
