/**
  The binary Merkle Patricia trie as a value: a finite map from terminated keys to non-empty
  blobs, its one canonical tree, and the commitment computed from it. Nothing here is cached,
  hashed early or loaded lazily; the other trie modules are proved against this one.
 */
module Trees {
  import opened Encoding
  import opened Rlp

  datatype Tree =
    | Nil
    | Val(v: Blob)
    | Ext(key: seq<byte>, sub: Tree)
    | Branch(c0: Tree, c1: Tree, c2: Tree)

  function Kid(t: Tree, s: byte): Tree
    requires t.Branch? && s <= 2
  {
    if s == 0 then t.c0 else if s == 1 then t.c1 else t.c2
  }

  function SetKid(t: Tree, s: byte, x: Tree): Tree
    requires t.Branch? && s <= 2
  {
    if s == 0 then t.(c0 := x) else if s == 1 then t.(c1 := x) else t.(c2 := x)
  }

  function Count(t: Tree): nat {
    if t.Nil? then 0 else 1
  }

  /** No short node over a short node, at least two children in every full node, no empty value. */
  predicate Canon(t: Tree) {
    match t
    case Nil => false
    case Val(_) => false
    case Ext(k, s) =>
      if s.Val? then TermKey(k) && Len(s.v) > 0
      else |k| > 0 && Bits(k) && s.Branch? && Canon(s)
    case Branch(a, b, c) =>
      && (a.Nil? || Canon(a)) && (b.Nil? || Canon(b)) && (c.Nil? || (c.Val? && Len(c.v) > 0))
      && Count(a) + Count(b) + Count(c) >= 2
  }

  predicate Root(t: Tree) {
    t.Nil? || Canon(t)
  }

  /** The value stored under a key. */
  function Get(t: Tree, k: seq<byte>): Option<Blob> {
    match t
    case Nil => None
    case Val(v) => Some(v)
    case Ext(key, s) => if key <= k then Get(s, k[|key|..]) else None
    case Branch(_, _, _) => if |k| == 0 || k[0] > 2 then None else Get(Kid(t, k[0]), k[1..])
  }

  function Graft(k: seq<byte>, s: Tree): Tree {
    if |k| == 0 then s else Ext(k, s)
  }

  /** The full node that separates two keys at their first difference. */
  function Fork(a: byte, s: Tree, b: byte, x: Tree): Tree
    requires a <= 2 && b <= 2
  {
    SetKid(SetKid(Branch(Nil, Nil, Nil), a, s), b, x)
  }

  function Put(t: Tree, k: seq<byte>, x: Tree): Tree {
    if |k| == 0 then x else
    match t
    case Nil => Ext(k, x)
    case Val(_) => t
    case Ext(key, s) =>
      var m := PrefixLen(k, key);
      if m == |key| then Ext(key, Put(s, k[m..], x))
      else if m == |k| || key[m] > 2 || k[m] > 2 then t
      else
        var b := Fork(key[m], Graft(key[m + 1..], s), k[m], Graft(k[m + 1..], x));
        Graft(k[..m], b)
    case Branch(_, _, _) =>
      if k[0] > 2 then t else SetKid(t, k[0], Put(Kid(t, k[0]), k[1..], x))
  }

  /** Prefixes a key segment, merging it into a short node. */
  function Join(k: seq<byte>, s: Tree): Tree {
    match s
    case Ext(key, sub) => Ext(k + key, sub)
    case _ => Ext(k, s)
  }

  /** Collapses a full node that has a single child left. */
  function Shrink(t: Tree): Tree
    requires t.Branch?
  {
    if t.c1.Nil? && t.c2.Nil? && !t.c0.Nil? then Join([0], t.c0)
    else if t.c0.Nil? && t.c2.Nil? && !t.c1.Nil? then Join([1], t.c1)
    else if t.c0.Nil? && t.c1.Nil? && !t.c2.Nil? then Ext([2], t.c2)
    else t
  }

  function Cut(t: Tree, k: seq<byte>): Tree {
    match t
    case Nil => Nil
    case Val(_) => Nil
    case Ext(key, s) =>
      var m := PrefixLen(k, key);
      if m < |key| then t
      else if m == |k| then Nil
      else Join(key, Cut(s, k[m..]))
    case Branch(_, _, _) =>
      if |k| == 0 || k[0] > 2 then t else Shrink(SetKid(t, k[0], Cut(Kid(t, k[0]), k[1..])))
  }

  // ----- keys

  lemma TermKeyDrop(k: seq<byte>, n: nat)
    requires TermKey(k) && n < |k|
    ensures TermKey(k[n..])
    ensures k[n] <= 2 && (k[n] == 2 <==> n == |k| - 1)
  {
    var r := k[n..];
    assert r[..|r| - 1] == k[..|k| - 1][n..];
    assert n < |k| - 1 ==> k[n] == k[..|k| - 1][n];
  }

  lemma TermKeyCons(s: byte, k: seq<byte>)
    requires s <= 1 && TermKey(k)
    ensures TermKey([s] + k)
  {
    TermKeyConcat([s], k);
  }

  lemma TermKeyConcat(p: seq<byte>, k: seq<byte>)
    requires Bits(p) && TermKey(k)
    ensures TermKey(p + k)
  {
    var q := p + k;
    assert q[..|q| - 1] == p + k[..|k| - 1];
  }

  /** A full key is never a proper prefix of a path. */
  lemma TermKeyPrefix(k: seq<byte>, key: seq<byte>)
    requires TermKey(k) && Path(key) && k <= key
    ensures k == key
  {
    var last: nat := |k| - 1;
    if |k| < |key| {
      PathBit(key, last);
    }
  }

  lemma PathBit(key: seq<byte>, i: nat)
    requires Path(key) && i + 1 < |key|
    ensures key[i] <= 1
  {
    assert Body(key)[i] == key[i];
  }

  /** Where a full key leaves a short node's key. */
  lemma Divergence(k: seq<byte>, key: seq<byte>)
    requires TermKey(k) && Path(key)
    ensures var m := PrefixLen(k, key);
            && (m < |key| ==> m < |k| && key[m] != k[m] && key[m] <= 2 && k[m] <= 2)
            && Bits(k[..m]) == (m < |k|)
            && (m == |key| <==> key <= k)
  {
    var m := PrefixLen(k, key);
    if m == |k| {
      assert k[..m] == k && k[m - 1] == 2;
      TermKeyPrefix(k, key);
    } else {
      assert k[..m] == k[..|k| - 1][..m];
      TermKeyDrop(k, m);
      if m < |key| {
        PathSymbol(key, m);
      }
    }
  }

  lemma PathSymbol(key: seq<byte>, i: nat)
    requires Path(key) && i < |key|
    ensures key[i] <= 2
  {
    if i + 1 < |key| {
      PathBit(key, i);
    } else {
      assert HasTerm(key) || Body(key) == key;
    }
  }

  // ----- updates keep the canonical shape

  /** What may hang at child s of a canonical full node, other than nothing. */
  predicate KidOk(s: byte, t: Tree) {
    if s == 2 then t.Val? && Len(t.v) > 0 else Canon(t)
  }

  lemma GraftCanon(key: seq<byte>, m: nat, s: Tree)
    requires Canon(Ext(key, s)) && m < |key|
    ensures key[m] <= 2 && KidOk(key[m], Graft(key[m + 1..], s))
  {
    if s.Val? {
      TermKeyDrop(key, m);
      if m + 1 < |key| {
        TermKeyDrop(key, m + 1);
      }
    }
  }

  lemma ForkCanon(a: byte, s: Tree, b: byte, x: Tree)
    requires a <= 2 && b <= 2 && a != b && KidOk(a, s) && KidOk(b, x)
    ensures Canon(Fork(a, s, b, x))
  {
  }

  lemma {:induction false} PutCanon(t: Tree, k: seq<byte>, x: Tree)
    requires Root(t) && TermKey(k) && x.Val? && Len(x.v) > 0
    ensures Canon(Put(t, k, x)) && (t.Branch? ==> Put(t, k, x).Branch?)
  {
    match t
    case Nil =>
    case Ext(key, s) =>
      Divergence(k, key);
      var m := PrefixLen(k, key);
      if m < |key| {
        GraftCanon(key, m, s);
        GraftCanon(k, m, x);
        ForkCanon(key[m], Graft(key[m + 1..], s), k[m], Graft(k[m + 1..], x));
      } else if s.Val? {
        TermKeyPrefix(key, k);
      } else {
        assert m < |k| by { assert k[..m] == key; }
        TermKeyDrop(k, m);
        PutCanon(s, k[m..], x);
      }
    case Branch(_, _, _) =>
      TermKeyDrop(k, 0);
      if k[0] != 2 {
        TermKeyDrop(k, 1);
        PutCanon(Kid(t, k[0]), k[1..], x);
      }
  }

  lemma JoinCanon(k: seq<byte>, s: Tree)
    requires |k| > 0 && Bits(k) && Canon(s)
    ensures Canon(Join(k, s))
  {
    if s.Ext? && s.sub.Val? {
      TermKeyConcat(k, s.key);
    }
  }

  lemma ShrinkCanon(t: Tree)
    requires t.Branch? && Root(t.c0) && Root(t.c1) && (t.c2.Nil? || KidOk(2, t.c2))
    requires Count(t.c0) + Count(t.c1) + Count(t.c2) >= 1
    ensures Canon(Shrink(t))
  {
    if t.c1.Nil? && t.c2.Nil? {
      JoinCanon([0], t.c0);
    } else if t.c0.Nil? && t.c2.Nil? {
      JoinCanon([1], t.c1);
    }
  }

  lemma {:induction false} CutCanon(t: Tree, k: seq<byte>)
    requires Root(t) && TermKey(k)
    ensures Root(Cut(t, k)) && (t.Branch? ==> Canon(Cut(t, k)))
  {
    match t
    case Nil =>
    case Ext(key, s) =>
      Divergence(k, key);
      var m := PrefixLen(k, key);
      if m == |key| && m < |k| {
        if s.Val? {
          TermKeyPrefix(key, k);
        } else {
          TermKeyDrop(k, m);
          CutCanon(s, k[m..]);
          JoinCanon(key, Cut(s, k[m..]));
        }
      }
    case Branch(_, _, _) =>
      TermKeyDrop(k, 0);
      if k[0] != 2 {
        TermKeyDrop(k, 1);
        CutCanon(Kid(t, k[0]), k[1..]);
      }
      ShrinkCanon(SetKid(t, k[0], Cut(Kid(t, k[0]), k[1..])));
  }

  // ----- updates are map updates

  lemma GetGraft(k: seq<byte>, s: Tree, q: seq<byte>)
    ensures Get(Graft(k, s), q) == if k <= q then Get(s, q[|k|..]) else None
  {
    assert q[0..] == q;
  }

  /** Reading through the first m + 1 symbols of a short node's key. */
  lemma GetSplit(key: seq<byte>, m: nat, s: Tree, q: seq<byte>)
    requires m < |key| && m < |q| && key[..m] == q[..m]
    ensures Get(Ext(key, s), q) == if key[m] == q[m] then Get(Graft(key[m + 1..], s), q[m + 1..]) else None
  {
    GetGraft(key[m + 1..], s, q[m + 1..]);
    if key[m] == q[m] {
      assert key[..m + 1] == q[..m + 1];
      assert key <= q <==> key[m + 1..] <= q[m + 1..] by {
        assert key == key[..m + 1] + key[m + 1..];
        assert q == q[..m + 1] + q[m + 1..];
      }
      if key <= q {
        assert q[m + 1..][|key| - m - 1..] == q[|key|..];
      }
    }
  }

  lemma ForkGet(key: seq<byte>, s: Tree, k: seq<byte>, x: Tree, m: nat, q: seq<byte>)
    requires m < |key| && m < |k| && m < |q| && key[..m] == k[..m] == q[..m]
    requires key[m] <= 2 && k[m] <= 2 && q[m] <= 2 && key[m] != k[m]
    ensures var f := Fork(key[m], Graft(key[m + 1..], s), k[m], Graft(k[m + 1..], x));
            Get(f, q[m..]) == if q[m] == k[m] then Get(Ext(k, x), q) else Get(Ext(key, s), q)
  {
    GetSplit(key, m, s, q);
    GetSplit(k, m, x, q);
    assert q[m..][1..] == q[m + 1..];
  }

  lemma GetLeaf(k: seq<byte>, x: Tree, q: seq<byte>)
    requires TermKey(k) && TermKey(q) && x.Val?
    ensures Get(Ext(k, x), q) == if q == k then Some(x.v) else None
  {
    if k <= q {
      TermKeyPrefix(k, q);
    }
  }

  lemma PutGetFork(key: seq<byte>, s: Tree, k: seq<byte>, x: Tree, q: seq<byte>)
    requires Canon(Ext(key, s)) && TermKey(k) && TermKey(q) && x.Val?
    requires PrefixLen(k, key) < |key|
    ensures Get(Put(Ext(key, s), k, x), q) == if q == k then Some(x.v) else Get(Ext(key, s), q)
  {
    Divergence(k, key);
    var m := PrefixLen(k, key);
    var f := Fork(key[m], Graft(key[m + 1..], s), k[m], Graft(k[m + 1..], x));
    GetForked(key, s, k, x, m, q, f);
  }

  lemma GetForked(key: seq<byte>, s: Tree, k: seq<byte>, x: Tree, m: nat, q: seq<byte>, f: Tree)
    requires TermKey(k) && TermKey(q) && x.Val?
    requires m < |key| && m < |k| && key[..m] == k[..m]
    requires key[m] <= 2 && k[m] <= 2 && key[m] != k[m]
    requires f == Fork(key[m], Graft(key[m + 1..], s), k[m], Graft(k[m + 1..], x))
    ensures Get(Graft(k[..m], f), q) == if q == k then Some(x.v) else Get(Ext(key, s), q)
  {
    GetGraft(k[..m], f, q);
    if k[..m] <= q {
      LongerThanPrefix(k, m, q);
      ForkedGet(key, s, k, x, m, q);
    } else {
      PrefixOfPrefix(key, m, q);
      PrefixOfPrefix(k, m, q);
    }
  }

  lemma ForkedGet(key: seq<byte>, s: Tree, k: seq<byte>, x: Tree, m: nat, q: seq<byte>)
    requires TermKey(k) && TermKey(q) && x.Val?
    requires m < |key| && m < |k| && m < |q| && key[..m] == k[..m] && k[..m] <= q
    requires key[m] <= 2 && k[m] <= 2 && key[m] != k[m]
    ensures var f := Fork(key[m], Graft(key[m + 1..], s), k[m], Graft(k[m + 1..], x));
            Get(f, q[m..]) == if q == k then Some(x.v) else Get(Ext(key, s), q)
  {
    PrefixOfPrefix(k, m, q);
    TermKeyDrop(q, m);
    ForkGet(key, s, k, x, m, q);
    GetSplit(key, m, s, q);
    GetLeaf(k, x, q);
  }

  lemma LongerThanPrefix(k: seq<byte>, m: nat, q: seq<byte>)
    requires TermKey(k) && TermKey(q) && m < |k| && k[..m] <= q
    ensures m < |q|
  {
    var last: nat := |q| - 1;
    if |q| == m {
      TermKeyDrop(k, last);
    }
  }

  lemma PrefixOfPrefix(key: seq<byte>, m: nat, q: seq<byte>)
    requires m <= |key|
    ensures key <= q ==> key[..m] <= q
    ensures key[..m] <= q ==> q[..m] == key[..m]
  {
  }

  lemma {:induction false} PutGet(t: Tree, k: seq<byte>, x: Tree, q: seq<byte>)
    requires Root(t) && TermKey(k) && TermKey(q) && x.Val?
    ensures Get(Put(t, k, x), q) == if q == k then Some(x.v) else Get(t, q)
    decreases t, 0
  {
    match t
    case Nil =>
      GetLeaf(k, x, q);
    case Ext(key, s) =>
      Divergence(k, key);
      Divergence(q, key);
      var m := PrefixLen(k, key);
      if m < |key| {
        PutGetFork(key, s, k, x, q);
      } else if s.Val? {
        TermKeyPrefix(key, k);
        GetLeaf(key, s, q);
        GetLeaf(key, x, q);
      } else if key <= q {
        PutGetBelow(key, s, k, x, q);
      }
    case Branch(_, _, _) =>
      TermKeyDrop(k, 0);
      TermKeyDrop(q, 0);
      assert k == [k[0]] + k[1..] && q == [q[0]] + q[1..];
      if q[0] == k[0] && k[0] != 2 {
        TermKeyDrop(k, 1);
        TermKeyDrop(q, 1);
        PutGet(Kid(t, k[0]), k[1..], x, q[1..]);
      }
  }

  lemma {:induction false} PutGetBelow(key: seq<byte>, s: Tree, k: seq<byte>, x: Tree, q: seq<byte>)
    requires Canon(Ext(key, s)) && s.Branch? && TermKey(k) && TermKey(q) && x.Val? && key <= k && key <= q
    ensures Get(Put(s, k[|key|..], x), q[|key|..]) == if q == k then Some(x.v) else Get(s, q[|key|..])
    decreases s, 1
  {
    var m := |key|;
    assert k[..m] == key && q[..m] == key;
    assert k == key + k[m..] && q == key + q[m..];
    TermKeyDrop(k, m);
    TermKeyDrop(q, m);
    PutGet(s, k[m..], x, q[m..]);
  }

  lemma GetJoin(k: seq<byte>, s: Tree, q: seq<byte>)
    ensures Get(Join(k, s), q) == if k <= q then Get(s, q[|k|..]) else None
  {
    if s.Ext? {
      var key := k + s.key;
      if k <= q {
        assert q == k + q[|k|..];
        assert key <= q <==> s.key <= q[|k|..];
        if key <= q {
          assert q[|k|..][|s.key|..] == q[|key|..];
        }
      } else {
        assert key <= q ==> k <= q;
      }
    }
  }

  lemma GetShrink(t: Tree, q: seq<byte>)
    requires t.Branch? && TermKey(q) && (t.c2.Nil? || t.c2.Val?)
    ensures Get(Shrink(t), q) == Get(t, q)
  {
    TermKeyDrop(q, 0);
    GetJoin([0], t.c0, q);
    GetJoin([1], t.c1, q);
    assert [0] <= q <==> q[0] == 0;
    assert [1] <= q <==> q[0] == 1;
    assert [2] <= q <==> q[0] == 2;
  }

  lemma {:induction false} CutGet(t: Tree, k: seq<byte>, q: seq<byte>)
    requires Root(t) && TermKey(k) && TermKey(q)
    ensures Get(Cut(t, k), q) == if q == k then None else Get(t, q)
    decreases t, 0
  {
    match t
    case Nil =>
    case Ext(key, s) =>
      Divergence(k, key);
      var m := PrefixLen(k, key);
      if m < |key| {
      } else if s.Val? {
        TermKeyPrefix(key, k);
        GetLeaf(key, s, q);
      } else {
        assert k[..m] == key;
        CutGetBelow(key, s, k, q);
      }
    case Branch(_, _, _) =>
      TermKeyDrop(k, 0);
      TermKeyDrop(q, 0);
      assert k == [k[0]] + k[1..] && q == [q[0]] + q[1..];
      GetShrink(SetKid(t, k[0], Cut(Kid(t, k[0]), k[1..])), q);
      if q[0] == k[0] && k[0] != 2 {
        TermKeyDrop(k, 1);
        TermKeyDrop(q, 1);
        CutGet(Kid(t, k[0]), k[1..], q[1..]);
      }
  }

  lemma {:induction false} CutGetBelow(key: seq<byte>, s: Tree, k: seq<byte>, q: seq<byte>)
    requires Canon(Ext(key, s)) && s.Branch? && TermKey(k) && TermKey(q) && key <= k
    ensures |key| < |k|
    ensures Get(Join(key, Cut(s, k[|key|..])), q) == if q == k then None else Get(Ext(key, s), q)
    decreases s, 1
  {
    var m := |key|;
    assert k[..m] == key;
    TermKeyDrop(k, m);
    GetJoin(key, Cut(s, k[m..]), q);
    if key <= q {
      assert q[..m] == key;
      assert k == key + k[m..] && q == key + q[m..];
      TermKeyDrop(q, m);
      CutGet(s, k[m..], q[m..]);
    }
  }

  // ----- the canonical tree of a map is unique

  /** Some key of a canonical tree. */
  function Witness(t: Tree): (k: seq<byte>)
    requires Canon(t)
    ensures TermKey(k) && Get(t, k).Some?
  {
    match t
    case Ext(key, s) =>
      if s.Val? then key
      else
        var w := Witness(s);
        TermKeyConcat(key, w);
        assert (key + w)[|key|..] == w;
        key + w
    case Branch(a, b, _) => KidWitness(t, if !a.Nil? then 0 else 1)
  }

  /** Some key of a canonical full node that passes through child s. */
  function KidWitness(t: Tree, s: byte): (k: seq<byte>)
    requires t.Branch? && s <= 2 && !Kid(t, s).Nil?
    requires s == 2 || Canon(Kid(t, s))
    requires s == 2 ==> Kid(t, s).Val?
    ensures TermKey(k) && k[0] == s && Get(t, k).Some?
  {
    if s == 2 then [2]
    else
      var w := Witness(Kid(t, s));
      TermKeyCons(s, w);
      assert ([s] + w)[1..] == w;
      [s] + w
  }

  ghost predicate SameMap(a: Tree, b: Tree) {
    forall q :: TermKey(q) ==> Get(a, q) == Get(b, q)
  }

  lemma GetUnder(key: seq<byte>, s: Tree, q: seq<byte>)
    ensures Get(Ext(key, s), key + q) == Get(s, q)
  {
    assert (key + q)[|key|..] == q;
  }

  lemma HoldsSome(t: Tree)
    requires Canon(t)
    ensures exists q :: TermKey(q) && Get(t, q).Some?
  {
    assert Get(t, Witness(t)).Some?;
  }

  /** A full node has keys with two different first symbols, so no short node has the same map. */
  lemma BranchIsNotExt(a: Tree, b: Tree)
    requires Canon(a) && Canon(b) && a.Ext? && b.Branch?
    ensures !SameMap(a, b)
  {
    var i: byte := if !b.c0.Nil? then 0 else 1;
    var j: byte := if !b.c2.Nil? then 2 else 1;
    var p, q := KidWitness(b, i), KidWitness(b, j);
    assert Get(a, p).Some? ==> a.key[0] == p[0];
    assert Get(a, q).Some? ==> a.key[0] == q[0];
    assert Get(b, p).Some? && Get(b, q).Some?;
  }

  /** Keys of short nodes with the same map agree: neither continues past the other. */
  lemma ExtKeysAgree(a: Tree, b: Tree)
    requires Canon(a) && Canon(b) && a.Ext? && b.Ext? && SameMap(a, b)
    ensures |b.key| <= |a.key| && b.key <= a.key
  {
    if a.sub.Val? {
      assert Get(a, a.key).Some?;
      assert b.key <= a.key;
    } else {
      var s := a.sub;
      var i: byte := if !s.c0.Nil? then 0 else 1;
      var j: byte := if !s.c2.Nil? then 2 else 1;
      assert i != j;
      ExtKeyThrough(a, b, i);
      ExtKeyThrough(a, b, j);
      assert |b.key| <= |a.key|;
      assert b.key <= a.key + KidWitness(s, i);
    }
  }

  lemma ExtKeyThrough(a: Tree, b: Tree, i: byte)
    requires Canon(a) && a.Ext? && a.sub.Branch? && Canon(a.sub) && b.Ext? && SameMap(a, b)
    requires i <= 2 && !Kid(a.sub, i).Nil?
    ensures b.key <= a.key + KidWitness(a.sub, i)
    ensures |b.key| > |a.key| ==> b.key[|a.key|] == i
  {
    var w := KidWitness(a.sub, i);
    TermKeyConcat(a.key, w);
    GetUnder(a.key, a.sub, w);
    assert Get(b, a.key + w).Some?;
    assert (a.key + w)[|a.key|] == i;
  }

  lemma SameMapSub(a: Tree, b: Tree)
    requires Canon(a) && Canon(b) && a.Ext? && b.Ext? && a.key == b.key && SameMap(a, b)
    requires a.sub.Branch? && b.sub.Branch?
    ensures SameMap(a.sub, b.sub)
  {
    forall q | TermKey(q)
      ensures Get(a.sub, q) == Get(b.sub, q)
    {
      TermKeyConcat(a.key, q);
      GetUnder(a.key, a.sub, q);
      GetUnder(b.key, b.sub, q);
    }
  }

  lemma SameMapKid(a: Tree, b: Tree, i: byte)
    requires a.Branch? && b.Branch? && SameMap(a, b) && i <= 1
    ensures SameMap(Kid(a, i), Kid(b, i))
  {
    forall q | TermKey(q)
      ensures Get(Kid(a, i), q) == Get(Kid(b, i), q)
    {
      TermKeyCons(i, q);
      assert ([i] + q)[1..] == q;
    }
  }

  /** Two canonical trees with the same contents are the same tree. */
  lemma {:induction false} Unique(a: Tree, b: Tree)
    requires Root(a) && Root(b) && SameMap(a, b)
    ensures a == b
    decreases a
  {
    if a.Nil? || b.Nil? {
      if !b.Nil? {
        HoldsSome(b);
      } else if !a.Nil? {
        HoldsSome(a);
      }
    } else if a.Ext? && b.Branch? {
      BranchIsNotExt(a, b);
    } else if a.Branch? && b.Ext? {
      assert SameMap(b, a);
      BranchIsNotExt(b, a);
    } else if a.Ext? {
      assert SameMap(b, a);
      ExtKeysAgree(a, b);
      ExtKeysAgree(b, a);
      assert a.key == b.key && a.key[|a.key| - 1] == b.key[|b.key| - 1];
      if a.sub.Val? {
        assert Get(a, a.key) == Get(b, a.key);
      } else {
        SameMapSub(a, b);
        Unique(a.sub, b.sub);
      }
    } else {
      SameMapKid(a, b, 0);
      SameMapKid(a, b, 1);
      Unique(a.c0, b.c0);
      Unique(a.c1, b.c1);
      assert TermKey([2]);
      assert Get(a.c2, [2][1..]) == Get(a, [2]) == Get(b, [2]) == Get(b.c2, [2][1..]);
    }
  }

  // ----- commitments

  function KeyItem(k: seq<byte>): Item {
    Str(Raw(if Path(k) then Compact(k) else []))
  }

  /** The consensus encoding of a node. */
  function Enc(t: Tree): Item
    decreases t, 0
  {
    match t
    case Nil => EMPTY_ITEM
    case Val(v) => Str(v)
    case Ext(k, s) => List([KeyItem(k), Ref(s)])
    case Branch(a, b, c) => List([Ref(a), Ref(b), Ref(c)])
  }

  /** How a parent refers to a node: nodes of fewer than 32 bytes are embedded, others hashed. */
  function Ref(t: Tree): Item
    decreases t, 1
  {
    if t.Nil? || t.Val? || Size(Enc(t)) < HASH_LEN then Enc(t) else Str(Keccak(Enc(t)))
  }

  function RootHash(t: Tree): Blob {
    if t.Nil? then EMPTY_ROOT else Keccak(Enc(t))
  }

  lemma RefOfValue(t: Tree)
    requires t.Nil? || t.Val?
    ensures Ref(t) == if t.Nil? then EMPTY_ITEM else Str(t.v)
  {
  }

  lemma CanonPath(k: seq<byte>, s: Tree)
    requires Canon(Ext(k, s))
    ensures Path(k) && (HasTerm(k) <==> s.Val?)
  {
  }

  lemma RefOfCanon(t: Tree)
    requires Canon(t)
    ensures Enc(t).List?
    ensures Ref(t) == Enc(t) || Ref(t) == Str(Keccak(Enc(t)))
    ensures Ref(t) != EMPTY_ITEM
  {
  }

  lemma RefsEqual(a: Tree, b: Tree)
    requires Root(a) && Root(b) && Ref(a) == Ref(b)
    ensures (a.Nil? <==> b.Nil?) && (!a.Nil? ==> Enc(a) == Enc(b))
  {
    if !a.Nil? { RefOfCanon(a); }
    if !b.Nil? { RefOfCanon(b); }
  }

  lemma {:induction false} EncInjective(a: Tree, b: Tree)
    requires Canon(a) && Canon(b) && Enc(a) == Enc(b)
    ensures a == b
    decreases a, 0
  {
    var x, y := Enc(a).items, Enc(b).items;
    assert x[0] == y[0] && x[1] == y[1];
    if a.Ext? {
      assert |x| == 2 && b.Ext?;
      CanonPath(a.key, a.sub);
      CanonPath(b.key, b.sub);
      CompactInjective(a.key, b.key);
      if a.sub.Val? {
        assert Str(a.sub.v) == Ref(a.sub) == Ref(b.sub) == Str(b.sub.v);
      } else {
        RefsEqual(a.sub, b.sub);
        EncInjective(a.sub, b.sub);
      }
    } else {
      assert |x| == 3 && b.Branch?;
      assert x[2] == y[2] && Enc(a.c2) == Ref(a.c2) == Ref(b.c2) == Enc(b.c2);
      KidsInjective(a.c0, b.c0);
      KidsInjective(a.c1, b.c1);
    }
  }

  lemma {:induction false} KidsInjective(a: Tree, b: Tree)
    requires Root(a) && Root(b) && Ref(a) == Ref(b)
    ensures a == b
    decreases a, 1
  {
    RefsEqual(a, b);
    if !a.Nil? {
      EncInjective(a, b);
    }
  }

  /** The root hash is a commitment: it determines the tree and is determined by the contents. */
  lemma RootHashCommits(a: Tree, b: Tree)
    requires Root(a) && Root(b)
    ensures RootHash(a) == RootHash(b) <==> SameMap(a, b)
  {
    if RootHash(a) == RootHash(b) && !a.Nil? {
      RefOfCanon(a);
      EncInjective(a, b);
    } else if RootHash(a) == RootHash(b) && !b.Nil? {
      RefOfCanon(b);
    }
    if SameMap(a, b) {
      Unique(a, b);
    }
  }
}
