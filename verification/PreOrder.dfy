/**
  The order in which a trie is to be visited: parents before children, children by symbol, so that
  paths come out sorted with the terminator last, and what the visits say about the contents.
 */
module PreOrder {
  import opened Encoding
  import opened Rlp
  import opened Trees
  import opened KeyOrder

  /** One visited node: its path, and its value if it is one. */
  datatype Visit = Visit(path: seq<byte>, value: Option<Blob>)

  function Visits(t: Tree, p: seq<byte>): seq<Visit> {
    match t
    case Nil => []
    case Val(v) => [Visit(p, Some(v))]
    case Ext(k, s) => [Visit(p, None)] + Visits(s, p + k)
    case Branch(a, b, c) => [Visit(p, None)] + (Visits(a, p + [0]) + (Visits(b, p + [1]) + Visits(c, p + [2])))
  }

  /** Byte-wise order of paths; a prefix comes first. */
  predicate Before(a: seq<byte>, b: seq<byte>) {
    Less(a, b) || (a <= b && a != b)
  }

  ghost predicate Sorted(vs: seq<Visit>) {
    forall i, j :: 0 <= i < j < |vs| ==> Before(vs[i].path, vs[j].path)
  }

  ghost predicate Under(vs: seq<Visit>, p: seq<byte>) {
    forall i :: 0 <= i < |vs| ==> p <= vs[i].path
  }

  lemma LessUnder(p: seq<byte>, a: seq<byte>, q: seq<byte>, b: seq<byte>)
    requires p <= a && q <= b && Less(p, q)
    ensures Less(a, b)
  {
    assert a == p + a[|p|..] && b == q + b[|q|..];
    LessAppend(p, q, a[|p|..], b[|q|..]);
  }

  lemma SortedConcat(p: seq<byte>, i: byte, a: seq<Visit>, j: byte, b: seq<Visit>)
    requires i < j && Sorted(a) && Sorted(b) && Under(a, p + [i])
    requires forall k :: 0 <= k < |b| ==> exists m :: j <= m <= 2 && p + [m] <= b[k].path
    ensures Sorted(a + b)
  {
    var r := a + b;
    forall x, y | 0 <= x < y < |r|
      ensures Before(r[x].path, r[y].path)
    {
      if x < |a| <= y {
        var m :| j <= m <= 2 && p + [m] <= b[y - |a|].path;
        LessDrop(p, [i], [m]);
        LessAt([i], [m], 0);
        LessUnder(p + [i], r[x].path, p + [m], r[y].path);
      }
    }
  }

  lemma UnderLonger(vs: seq<Visit>, p: seq<byte>, k: seq<byte>)
    requires Under(vs, p + k)
    ensures Under(vs, p)
  {
    forall i | 0 <= i < |vs|
      ensures p <= vs[i].path
    {
      assert p <= p + k;
    }
  }

  /** The node itself comes before everything below it. */
  lemma SortedCons(p: seq<byte>, vs: seq<Visit>)
    requires Sorted(vs) && forall i :: 0 <= i < |vs| ==> p <= vs[i].path && |p| < |vs[i].path|
    ensures Sorted([Visit(p, None)] + vs) && Under([Visit(p, None)] + vs, p)
  {
  }

  lemma {:induction false} VisitsSorted(t: Tree, p: seq<byte>)
    requires t.Nil? || t.Val? || Canon(t)
    ensures Sorted(Visits(t, p)) && Under(Visits(t, p), p)
    decreases t
  {
    match t
    case Nil =>
    case Val(_) =>
    case Ext(k, s) =>
      VisitsSorted(s, p + k);
      UnderLonger(Visits(s, p + k), p, k);
      assert |k| > 0;
      SortedCons(p, Visits(s, p + k));
    case Branch(a, b, c) =>
      VisitsSorted(a, p + [0]);
      VisitsSorted(b, p + [1]);
      VisitsSorted(c, p + [2]);
      BranchSorted(p, Visits(a, p + [0]), Visits(b, p + [1]), Visits(c, p + [2]));
  }

  lemma BranchSorted(p: seq<byte>, a: seq<Visit>, b: seq<Visit>, c: seq<Visit>)
    requires Sorted(a) && Sorted(b) && Sorted(c) && Under(a, p + [0]) && Under(b, p + [1]) && Under(c, p + [2])
    ensures Sorted([Visit(p, None)] + (a + (b + c))) && Under([Visit(p, None)] + (a + (b + c)), p)
  {
    SortedConcat(p, 1, b, 2, c);
    var bc := b + c;
    forall k | 0 <= k < |bc|
      ensures exists m :: 1 <= m <= 2 && p + [m] <= bc[k].path
    {
      assert k < |b| ==> p + [1] <= bc[k].path;
      assert k >= |b| ==> p + [2] <= bc[k].path;
    }
    SortedConcat(p, 0, a, 1, bc);
    var r := a + bc;
    forall k | 0 <= k < |r|
      ensures p <= r[k].path && |p| < |r[k].path|
    {
      if k < |a| {
        assert p + [0] <= r[k].path;
      } else {
        var m :| 1 <= m <= 2 && p + [m] <= bc[k - |a|].path;
      }
    }
    SortedCons(p, r);
  }

  // ----- visits and contents

  /** q leads from a subtree to a value in it. */
  predicate LeafKey(t: Tree, q: seq<byte>) {
    if t.Val? then q == [] else TermKey(q)
  }

  ghost predicate Visited(vs: seq<Visit>, path: seq<byte>, value: Option<Blob>) {
    exists i :: 0 <= i < |vs| && vs[i] == Visit(path, value)
  }

  lemma VisitedConcat(a: seq<Visit>, b: seq<Visit>, path: seq<byte>, value: Option<Blob>)
    ensures Visited(a + b, path, value) <==> Visited(a, path, value) || Visited(b, path, value)
  {
    if Visited(a, path, value) {
      var i :| 0 <= i < |a| && a[i] == Visit(path, value);
      assert (a + b)[i] == a[i];
    }
    if Visited(b, path, value) {
      var i :| 0 <= i < |b| && b[i] == Visit(path, value);
      assert (a + b)[|a| + i] == b[i];
    }
    if Visited(a + b, path, value) {
      var i :| 0 <= i < |a + b| && (a + b)[i] == Visit(path, value);
      assert if i < |a| then a[i] == (a + b)[i] else b[i - |a|] == (a + b)[i];
    }
  }

  /** Every value of the tree is visited under its key. */
  lemma {:induction false} AllVisited(t: Tree, p: seq<byte>, q: seq<byte>)
    requires (t.Nil? || t.Val? || Canon(t)) && LeafKey(t, q) && Get(t, q).Some?
    ensures Visited(Visits(t, p), p + q, Get(t, q))
    decreases t
  {
    match t
    case Val(v) =>
      assert Visits(t, p)[0] == Visit(p + q, Some(v));
    case Ext(k, s) =>
      var r := q[|k|..];
      assert q == k + r && p + q == (p + k) + r;
      if s.Val? {
        TermKeyPrefix(k, q);
      } else {
        assert |r| > 0 by { assert q[..|k|] == k; }
        TermKeyDrop(q, |k|);
      }
      AllVisited(s, p + k, r);
      VisitedConcat([Visit(p, None)], Visits(s, p + k), p + q, Get(t, q));
    case Branch(a, b, c) =>
      TermKeyDrop(q, 0);
      var i, r := q[0], q[1..];
      assert q == [i] + r && p + q == (p + [i]) + r;
      if i != 2 {
        TermKeyDrop(q, 1);
      }
      AllVisited(Kid(t, i), p + [i], r);
      KidVisited(t, p, i, p + q, Get(t, q));
  }

  lemma KidVisited(t: Tree, p: seq<byte>, i: byte, path: seq<byte>, value: Option<Blob>)
    requires t.Branch? && i <= 2 && Visited(Visits(Kid(t, i), p + [i]), path, value)
    ensures Visited(Visits(t, p), path, value)
  {
    var a, b, c := Visits(t.c0, p + [0]), Visits(t.c1, p + [1]), Visits(t.c2, p + [2]);
    VisitedConcat(b, c, path, value);
    VisitedConcat(a, b + c, path, value);
    VisitedConcat([Visit(p, None)], a + (b + c), path, value);
  }

  /** Where a visit of a value leads. */
  ghost predicate Honest(t: Tree, p: seq<byte>, v: Visit) {
    v.value.Some? ==> p <= v.path && LeafKey(t, v.path[|p|..]) && Get(t, v.path[|p|..]) == v.value
  }

  lemma HonestUp(k: seq<byte>, s: Tree, p: seq<byte>, v: Visit)
    requires Canon(Ext(k, s)) && Honest(s, p + k, v)
    ensures Honest(Ext(k, s), p, v)
  {
    if v.value.Some? {
      var r := v.path[|p + k|..];
      assert v.path == (p + k) + r;
      assert v.path[|p|..] == k + r;
      GetUnder(k, s, r);
      if s.Val? {
        assert k + r == k;
      } else {
        TermKeyConcat(k, r);
      }
    }
  }

  lemma HonestKid(t: Tree, p: seq<byte>, i: byte, v: Visit)
    requires Canon(t) && t.Branch? && i <= 2 && !Kid(t, i).Nil? && Honest(Kid(t, i), p + [i], v)
    ensures Honest(t, p, v)
  {
    if v.value.Some? {
      var r := v.path[|p| + 1..];
      assert v.path == (p + [i]) + r;
      assert v.path[|p|..] == [i] + r;
      assert ([i] + r)[1..] == r;
      if i == 2 {
        assert [i] + r == [2];
      } else {
        TermKeyCons(i, r);
      }
    }
  }

  /** Every visited value is in the tree under the key of its path. */
  lemma {:induction false} OnlyVisited(t: Tree, p: seq<byte>, j: nat)
    requires (t.Nil? || t.Val? || Canon(t)) && j < |Visits(t, p)|
    ensures Honest(t, p, Visits(t, p)[j])
    decreases t
  {
    match t
    case Val(_) =>
      assert p[|p|..] == [];
    case Ext(k, s) =>
      if j > 0 {
        OnlyVisited(s, p + k, j - 1);
        HonestUp(k, s, p, Visits(t, p)[j]);
      }
    case Branch(a, b, c) =>
      var x, y, z := Visits(a, p + [0]), Visits(b, p + [1]), Visits(c, p + [2]);
      if 0 < j <= |x| {
        OnlyVisited(a, p + [0], j - 1);
        HonestKid(t, p, 0, Visits(t, p)[j]);
      } else if |x| < j <= |x| + |y| {
        OnlyVisited(b, p + [1], j - 1 - |x|);
        HonestKid(t, p, 1, Visits(t, p)[j]);
      } else if |x| + |y| < j {
        OnlyVisited(c, p + [2], j - 1 - |x| - |y|);
        HonestKid(t, p, 2, Visits(t, p)[j]);
      }
  }
}
