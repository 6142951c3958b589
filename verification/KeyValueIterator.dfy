/**
  The key-value iterator on top of the node iterator: from a start key on, every pair of the trie
  once, in bit-lexicographic order with the terminator last.
 */
module KeyValueIterator {
  import opened Encoding
  import opened Rlp
  import opened Nodes
  import opened PreOrder
  import opened KeyOrder
  import opened NodeIterator
  import T = Trees
  import R = TrieRuns

  datatype Pair = Pair(key: seq<byte>, value: Blob)

  /** The values among the visits. */
  function Leaves(vs: seq<Visit>): seq<Pair> {
    if |vs| == 0 then []
    else Leaves(vs[..|vs| - 1]) + LeafOf(vs[|vs| - 1])
  }

  function LeafOf(v: Visit): seq<Pair> {
    if v.value.Some? then [Pair(v.path, v.value.value)] else []
  }

  lemma LeavesSnoc(vs: seq<Visit>, v: Visit)
    ensures Leaves(vs + [v]) == Leaves(vs) + LeafOf(v)
  {
    assert (vs + [v])[..|vs|] == vs;
  }

  /** Exactly the visited values are leaves. */
  lemma {:induction false} LeavesExact(vs: seq<Visit>, p: Pair)
    ensures p in Leaves(vs) <==> Visited(vs, p.key, Some(p.value))
  {
    if |vs| > 0 {
      var f, v := vs[..|vs| - 1], vs[|vs| - 1];
      assert vs == f + [v];
      LeavesExact(f, p);
      VisitedConcat(f, [v], p.key, Some(p.value));
      assert Visited([v], p.key, Some(p.value)) <==> v == Visit(p.key, Some(p.value)) by {
        assert [v][0] == v;
      }
    }
  }

  ghost predicate Increasing(ps: seq<Pair>) {
    forall i, j :: 0 <= i < j < |ps| ==> Before(ps[i].key, ps[j].key)
  }

  lemma {:induction false} LeavesIncreasing(vs: seq<Visit>)
    requires Sorted(vs)
    ensures Increasing(Leaves(vs))
  {
    if |vs| > 0 {
      var f, v := vs[..|vs| - 1], vs[|vs| - 1];
      LeavesIncreasing(f);
      var ps := Leaves(vs);
      forall i, j | 0 <= i < j < |ps|
        ensures Before(ps[i].key, ps[j].key)
      {
        if j == |Leaves(f)| {
          assert ps[i] in Leaves(f);
          LeavesExact(f, ps[i]);
          var k :| 0 <= k < |f| && f[k] == Visit(ps[i].key, Some(ps[i].value));
          assert Before(vs[k].path, v.path);
        }
      }
    }
  }

  /** The pairs of the trie whose key is not before start, each once, in order. */
  ghost predicate Lists(ps: seq<Pair>, t: T.Tree, start: seq<byte>) {
    && (forall i, j :: 0 <= i < j < |ps| ==> Less(ps[i].key, ps[j].key))
    && (forall p :: p in ps <==> TermKey(p.key) && T.Get(t, p.key) == Some(p.value) && !Before(p.key, start))
  }

  /** Whole keys are never prefixes of each other. */
  lemma KeysLess(a: seq<byte>, b: seq<byte>)
    requires TermKey(a) && TermKey(b) && Before(a, b)
    ensures Less(a, b)
  {
    if a <= b {
      T.TermKeyPrefix(a, b);
    }
  }

  /** Visits of values and contents of the trie are the same. */
  lemma VisitedIsHeld(t: T.Tree, p: Pair)
    requires T.Root(t)
    ensures Visited(AllVisits(t), p.key, Some(p.value)) <==> TermKey(p.key) && T.Get(t, p.key) == Some(p.value)
  {
    if t.Nil? {
      assert !Visited(AllVisits(t), p.key, Some(p.value));
    } else {
      if Visited(Visits(t, []), p.key, Some(p.value)) {
        var i :| 0 <= i < |Visits(t, [])| && Visits(t, [])[i] == Visit(p.key, Some(p.value));
        OnlyVisited(t, [], i);
        assert p.key[0..] == p.key;
      }
      if TermKey(p.key) && T.Get(t, p.key) == Some(p.value) {
        AllVisited(t, [], p.key);
        assert [] + p.key == p.key;
      }
    }
  }

  /** What is left after the split is what is not before the start. */
  lemma VisitedAfter(vs: seq<Visit>, k: nat, start: seq<byte>, p: Pair)
    requires k <= |vs| && Splits(vs, k, start)
    ensures Visited(vs[k..], p.key, Some(p.value)) <==> Visited(vs, p.key, Some(p.value)) && !Before(p.key, start)
  {
    var v := Visit(p.key, Some(p.value));
    assert vs == vs[..k] + vs[k..];
    VisitedConcat(vs[..k], vs[k..], p.key, Some(p.value));
    if Visited(vs[..k], p.key, Some(p.value)) {
      var i :| 0 <= i < k && vs[..k][i] == v;
      assert Before(vs[..k][i].path, start);
    }
    if Visited(vs[k..], p.key, Some(p.value)) {
      var i :| 0 <= i < |vs| - k && vs[k..][i] == v;
      assert !Before(vs[k + i].path, start);
    }
  }

  lemma LeavesList(t: T.Tree, k: nat, start: seq<byte>)
    requires T.Root(t) && k <= |AllVisits(t)| && Splits(AllVisits(t), k, start)
    ensures Lists(Leaves(AllVisits(t)[k..]), t, start)
  {
    var vs := AllVisits(t);
    var ps := Leaves(vs[k..]);
    AllSorted(t);
    LeavesIncreasing(vs[k..]);
    forall p
      ensures p in ps <==> TermKey(p.key) && T.Get(t, p.key) == Some(p.value) && !Before(p.key, start)
    {
      LeavesExact(vs[k..], p);
      VisitedAfter(vs, k, start, p);
      VisitedIsHeld(t, p);
    }
    forall i, j | 0 <= i < j < |ps|
      ensures Less(ps[i].key, ps[j].key)
    {
      assert ps[i] in ps && ps[j] in ps;
      KeysLess(ps[i].key, ps[j].key);
    }
  }

  lemma {:induction false} LeavesConcat(a: seq<Visit>, b: seq<Visit>)
    ensures Leaves(a + b) == Leaves(a) + Leaves(b)
    decreases |b|
  {
    if |b| == 0 {
      assert a + b == a;
    } else {
      var f, v := b[..|b| - 1], b[|b| - 1];
      assert b == f + [v] && a + b == (a + f) + [v];
      LeavesConcat(a, f);
      LeavesSnoc(f, v);
      LeavesSnoc(a + f, v);
    }
  }

  lemma LeavesCons(all: seq<Visit>, v: Visit, rest: seq<Visit>)
    requires all == [v] + rest
    ensures Leaves(all) == LeafOf(v) + Leaves(rest) && |all| == |rest| + 1
  {
    LeavesConcat([v], rest);
    LeavesOne(v);
  }

  lemma LeavesOne(v: Visit)
    ensures Leaves([v]) == LeafOf(v)
  {
    assert [v][..0] == [] && Leaves([]) == [];
  }

  // ----- the iterator

  /** What one step of the node iterator does to the values still to come. */
  ghost predicate Steps(it: NodeIterator, coming: seq<Visit>, ok: bool, p: Option<Pair>)
    reads it
  {
    if ok then
      && it.err.Fine? && |it.Todo()| < |coming|
      && Leaves(coming) == (if p.Some? then [p.value] else []) + Leaves(it.Todo())
    else p.None? && Stops(it, coming)
  }

  /** At the end no value is left; at a node that cannot be loaded, all of them are. */
  ghost predicate Stops(it: NodeIterator, coming: seq<Visit>)
    reads it
  {
    if it.err.Missing? then !it.whole && Leaves(coming) == Leaves(it.Todo()) else it.err.Ended? && Leaves(coming) == []
  }

  /** The next node, and its pair if it is a value. */
  method StepOn(it: NodeIterator) returns (ok: bool, p: Option<Pair>)
    requires it.Valid() && !it.err.SeekFailed?
    modifies it`stack, it`path, it`marks, it`left, it`under, it`err, it`passed
    ensures it.Valid() && !it.err.SeekFailed? && Steps(it, old(it.Todo()), ok, p)
  {
    p := None;
    ok := it.Next(true);
    if ok {
      p := PairHere(it, old(it.Todo()));
    }
  }

  method PairHere(it: NodeIterator, ghost coming: seq<Visit>) returns (p: Option<Pair>)
    requires it.Valid() && it.Stepped(coming, true)
    ensures Steps(it, coming, true, p)
  {
    LeavesCons(coming, it.Current(), it.Todo());
    var leaf := it.Leaf();
    p := None;
    if leaf {
      var v := it.LeafBlob();
      p := Some(Pair(it.path, v));
    }
  }

  /** What moving on to the next value does. */
  ghost predicate Moves(it: NodeIterator, coming: seq<Visit>, p: Option<Pair>)
    reads it
  {
    if p.Some? then it.err.Fine? && |it.Todo()| < |coming| && Leaves(coming) == [p.value] + Leaves(it.Todo())
    else Stops(it, coming)
  }

  /** Moving on to the first value that is not before the prefix. */
  ghost predicate MovesFrom(it: NodeIterator, prefix: seq<byte>, p: Option<Pair>)
    reads it
  {
    && IsKey(it.goal, prefix)
    && exists j :: 0 <= j <= |it.all| && Splits(it.all, j, it.goal) && Moves(it, From(it.all, j), p)
  }

  /** Moves on to the next value, if there is one; after a failed seek, to the first one sought. */
  method NextLeaf(it: NodeIterator) returns (p: Option<Pair>)
    requires it.Valid()
    modifies it`stack, it`path, it`marks, it`left, it`under, it`err, it`passed
    ensures it.Valid()
    ensures !old(it.err.SeekFailed?) ==> !it.err.SeekFailed? && Moves(it, old(it.Todo()), p)
    ensures old(it.err.SeekFailed?) ==>
              if it.err.SeekFailed? then p.None? && it.Sought(old(it.err).prefix)
              else MovesFrom(it, old(it.err).prefix, p)
  {
    if it.err.SeekFailed? {
      p := FirstSought(it);
    } else {
      p := NextValue(it);
    }
  }

  method NextValue(it: NodeIterator) returns (p: Option<Pair>)
    requires it.Valid() && !it.err.SeekFailed?
    modifies it`stack, it`path, it`marks, it`left, it`under, it`err, it`passed
    ensures it.Valid() && !it.err.SeekFailed? && Moves(it, old(it.Todo()), p)
  {
    ghost var coming := it.Todo();
    while true
      invariant it.Valid() && !it.err.SeekFailed? && |it.Todo()| <= |coming| && Leaves(coming) == Leaves(it.Todo())
      decreases |it.Todo()|
    {
      ghost var todo := it.Todo();
      var ok;
      ok, p := StepOn(it);
      StepsOn(it, coming, todo, ok, p);
      if !ok || p.Some? {
        return;
      }
    }
  }

  lemma StepsOn(it: NodeIterator, coming: seq<Visit>, todo: seq<Visit>, ok: bool, p: Option<Pair>)
    requires |todo| <= |coming| && Leaves(coming) == Leaves(todo) && Steps(it, todo, ok, p)
    ensures if ok && p.None? then |it.Todo()| < |todo| && Leaves(coming) == Leaves(it.Todo()) else Moves(it, coming, p)
  {
  }

  method FirstSought(it: NodeIterator) returns (p: Option<Pair>)
    requires it.Valid() && it.err.SeekFailed?
    modifies it`stack, it`path, it`marks, it`left, it`under, it`err, it`passed
    ensures it.Valid()
    ensures if it.err.SeekFailed? then p.None? && it.Sought(old(it.err).prefix)
            else MovesFrom(it, old(it.err).prefix, p)
  {
    p := None;
    var ok := it.Next(true);
    if it.err.SeekFailed? {
      return;
    }
    ghost var j :| 0 <= j <= |it.all| && Splits(it.all, j, it.goal) && it.Stepped(From(it.all, j), ok);
    p := FromStep(it, From(it.all, j), ok);
  }

  /** From a step on to the next value. */
  method FromStep(it: NodeIterator, ghost coming: seq<Visit>, ok: bool) returns (p: Option<Pair>)
    requires it.Valid() && !it.err.SeekFailed? && it.Stepped(coming, ok)
    modifies it`stack, it`path, it`marks, it`left, it`under, it`err, it`passed
    ensures it.Valid() && !it.err.SeekFailed? && Moves(it, coming, p)
  {
    p := None;
    if ok {
      p := PairHere(it, coming);
      if p.None? {
        p := NextValue(it);
      }
    }
  }

  // ----- whole iterations

  /** A pair of the trie, with its key in bytes. */
  datatype Entry = Entry(key: seq<byte>, value: Blob)

  /** Exactly the pairs of m whose key is not before start, in order. */
  ghost predicate ListsMap(es: seq<Entry>, m: R.Contents, start: seq<byte>) {
    && (forall i, j :: 0 <= i < j < |es| ==> Less(KeyToBinary(es[i].key), KeyToBinary(es[j].key)))
    && (forall e :: e in es <==> e.key in m && m[e.key] == e.value && !Before(KeyToBinary(e.key), start))
  }

  ghost function EntryOf(p: Pair): Entry {
    Entry(if Path(p.key) && BinaryToKey(p.key).Some? then BinaryToKey(p.key).value else [], p.value)
  }

  ghost function Entries(ps: seq<Pair>): seq<Entry> {
    seq(|ps|, i requires 0 <= i < |ps| => EntryOf(ps[i]))
  }

  /** The keys of a trie over byte keys are whole bytes. */
  lemma HeldKey(t: T.Tree, m: R.Contents, p: Pair)
    requires R.Holds(t, m) && TermKey(p.key) && T.Get(t, p.key) == Some(p.value)
    ensures BinaryToKey(p.key).Some? && p.key == KeyToBinary(EntryOf(p).key)
    ensures EntryOf(p).key in m && m[EntryOf(p).key] == p.value
  {
    assert R.At(m, p.key) == Some(p.value);
    R.BinaryToKeyInverse(p.key, BinaryToKey(p.key).value);
  }

  lemma EntryHeld(t: T.Tree, m: R.Contents, e: Entry)
    requires R.Holds(t, m) && e.key in m && m[e.key] == e.value
    ensures TermKey(KeyToBinary(e.key)) && T.Get(t, KeyToBinary(e.key)) == Some(e.value)
    ensures EntryOf(Pair(KeyToBinary(e.key), e.value)) == e
  {
    var q := KeyToBinary(e.key);
    KeyRoundTrip(e.key);
    assert q[..|q| - 1] == UnpackAll(e.key);
    assert R.At(m, q) == Some(e.value);
  }

  lemma ListedInBytes(ps: seq<Pair>, t: T.Tree, m: R.Contents, start: seq<byte>)
    requires Lists(ps, t, start) && R.Holds(t, m)
    ensures ListsMap(Entries(ps), m, start)
  {
    var es := Entries(ps);
    forall i, j | 0 <= i < j < |es|
      ensures Less(KeyToBinary(es[i].key), KeyToBinary(es[j].key))
    {
      assert ps[i] in ps && ps[j] in ps;
      HeldKey(t, m, ps[i]);
      HeldKey(t, m, ps[j]);
    }
    forall e
      ensures e in es <==> e.key in m && m[e.key] == e.value && !Before(KeyToBinary(e.key), start)
    {
      if e in es {
        var i :| 0 <= i < |es| && es[i] == e;
        assert ps[i] in ps;
        HeldKey(t, m, ps[i]);
      }
      if e.key in m && m[e.key] == e.value && !Before(KeyToBinary(e.key), start) {
        EntryHeld(t, m, e);
        var p := Pair(KeyToBinary(e.key), e.value);
        assert p in ps;
        var i :| 0 <= i < |ps| && ps[i] == p;
        assert es[i] == e;
      }
    }
  }

  lemma {:induction false} FindSplit(all: seq<Visit>, key: seq<byte>, j: nat) returns (k: nat)
    requires Sorted(all) && j <= |all| && AllBefore(all[..j], key)
    ensures k <= |all| && Splits(all, k, key)
    decreases |all| - j
  {
    if j == |all| {
      k := j;
    } else if Before(all[j].path, key) {
      TakeHead(all, j, key);
      k := FindSplit(all, key, j + 1);
    } else {
      SplitAt(all, j, all[j].path, key);
      k := j;
    }
  }

  /** What an iteration from start on finds if nothing is missing. */
  ghost predicate Whole(es: seq<Entry>, t: T.Tree, m: R.Contents, start: seq<byte>) {
    exists all :: Lists(all, t, UnpackAll(start)) && es <= Entries(all) && ListsMap(Entries(all), m, UnpackAll(start))
  }

  /**
    Iterating from a start key on: all pairs in order, or, where a node cannot be loaded, the first
    of them and the error.
   */
  method Iterate(db: Store, root: Node, start: seq<byte>, ghost t: T.Tree, ghost m: R.Contents)
    returns (es: seq<Entry>, err: Option<Blob>)
    requires TrieOk(db, root, t) && R.Holds(t, m)
    ensures err.None? ==> ListsMap(es, m, UnpackAll(start))
    ensures err.Some? ==> !Backed(db, root, t) && Whole(es, t, m, start)
  {
    var it := new NodeIterator(db, root, t);
    it.Seek(start);
    if it.err.SeekFailed? {
      SomeListing(t, m, start);
      return [], Some(it.err.hash);
    }
    ghost var all := Leaves(it.Todo());
    KeyIs(it.goal, start);
    FromPassed(it);
    LeavesList(t, it.passed, UnpackAll(start));
    ListedInBytes(all, t, m, UnpackAll(start));
    es, err := Drain(it, t, m, all);
  }

  lemma FromPassed(it: NodeIterator)
    requires it.passed <= |it.all| && if it.err.Ended? then it.passed == |it.all| else it.AtPlace()
    ensures it.Todo() == it.all[it.passed..]
  {
  }

  lemma SomeListing(t: T.Tree, m: R.Contents, start: seq<byte>)
    requires R.Holds(t, m)
    ensures Whole([], t, m, start)
  {
    AllSorted(t);
    var k := FindSplit(AllVisits(t), UnpackAll(start), 0);
    LeavesList(t, k, UnpackAll(start));
    var all := Leaves(AllVisits(t)[k..]);
    ListedInBytes(all, t, m, UnpackAll(start));
    assert [] <= Entries(all);
  }

  method Drain(it: NodeIterator, ghost t: T.Tree, ghost m: R.Contents, ghost all: seq<Pair>)
    returns (es: seq<Entry>, err: Option<Blob>)
    requires it.Valid() && !it.err.SeekFailed? && all == Leaves(it.Todo()) && R.Holds(t, m)
    requires forall p :: p in all ==> TermKey(p.key) && T.Get(t, p.key) == Some(p.value)
    modifies it`stack, it`path, it`marks, it`left, it`under, it`err, it`passed
    ensures if err.None? then es == Entries(all) else !it.whole && es <= Entries(all)
  {
    es, err := [], None;
    ghost var n := 0;
    while true
      invariant it.Valid() && !it.err.SeekFailed? && n <= |all| && all[n..] == Leaves(it.Todo())
          && es == Entries(all[..n])
      decreases |it.Todo()|
    {
      var p := NextLeaf(it);
      if p.None? {
        EntriesFront(all, n);
        if it.err.Missing? {
          err := Some(it.err.hash);
        }
        return;
      }
      TakeNext(all, n, p.value, Leaves(it.Todo()));
      HeldKey(t, m, p.value);
      var key := BinaryToKeybytes(p.value.key);
      es := es + [Entry(key.value, p.value.value)];
      n := n + 1;
    }
  }

  lemma EntriesFront(all: seq<Pair>, n: nat)
    requires n <= |all|
    ensures Entries(all[..n]) <= Entries(all) && (all[n..] == [] ==> Entries(all[..n]) == Entries(all))
  {
  }

  lemma TakeNext(all: seq<Pair>, n: nat, p: Pair, rest: seq<Pair>)
    requires n <= |all| && all[n..] == [p] + rest
    ensures n < |all| && all[n] == p && p in all && all[n + 1..] == rest
    ensures Entries(all[..n + 1]) == Entries(all[..n]) + [EntryOf(p)]
  {
    assert all[n] == all[n..][0];
    assert all[n + 1..] == all[n..][1..];
    assert all[..n + 1] == all[..n] + [p];
  }
}
