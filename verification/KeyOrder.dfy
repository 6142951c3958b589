/**
  Order of keys, and what a streaming insertion may assume about the tree built so far.
 */
module KeyOrder {
  import opened Encoding
  import opened Trees

  /** Byte-wise order of keys of equal length. */
  predicate Less(a: seq<byte>, b: seq<byte>) {
    var m := PrefixLen(a, b);
    m < |a| && m < |b| && a[m] < b[m]
  }

  lemma LessAt(a: seq<byte>, b: seq<byte>, m: nat)
    requires m < |a| && m < |b| && a[..m] == b[..m] && a[m] != b[m]
    ensures Less(a, b) <==> a[m] < b[m]
  {
    PrefixLenUnique(a, b, m);
  }

  lemma LessDrop(p: seq<byte>, a: seq<byte>, b: seq<byte>)
    ensures Less(p + a, p + b) <==> Less(a, b)
  {
    var m := PrefixLen(a, b);
    var n := |p| + m;
    assert (p + a)[..n] == p + a[..m] && (p + b)[..n] == p + b[..m];
    PrefixLenUnique(p + a, p + b, n);
  }

  lemma LessTrans(a: seq<byte>, b: seq<byte>, c: seq<byte>)
    requires Less(a, b) && Less(b, c)
    ensures Less(a, c)
  {
    var i, j := PrefixLen(a, b), PrefixLen(b, c);
    var m := if i < j then i else j;
    assert a[..m] == b[..m] by { assert a[..m] == a[..i][..m] && b[..m] == b[..i][..m]; }
    assert b[..m] == c[..m] by { assert b[..m] == b[..j][..m] && c[..m] == c[..j][..m]; }
    assert i < j ==> b[i] == b[..j][i] == c[..j][i];
    assert j < i ==> a[j] == a[..i][j] == b[..i][j];
    LessAt(a, c, m);
  }

  lemma LessIrreflexive(a: seq<byte>)
    ensures !Less(a, a)
  {
    PrefixLenUnique(a, a, |a|);
  }

  lemma {:induction false} BitsOfOrder(x: nat, y: nat, n: nat)
    requires x < y < Pow2(n)
    ensures Less(BitsOf(x, n), BitsOf(y, n))
  {
    if n > 0 {
      var w := Pow2(n - 1);
      var a, b := if x >= w then x - w else x, if y >= w then y - w else y;
      if (x >= w) == (y >= w) {
        BitsOfOrder(a, b, n - 1);
        LessDrop([if x >= w then 1 else 0], BitsOf(a, n - 1), BitsOf(b, n - 1));
      } else {
        FirstLess(BitsOf(x, n), BitsOf(y, n));
      }
    }
  }

  lemma FirstLess(a: seq<byte>, b: seq<byte>)
    requires |a| > 0 && |b| > 0 && a[0] < b[0]
    ensures Less(a, b)
  {
    LessAt(a, b, 0);
  }

  lemma NotFirstLess(a: seq<byte>, b: seq<byte>)
    requires |a| > 0 && Less(b, a)
    ensures |b| > 0 && a[0] >= b[0]
  {
    assert PrefixLen(b, a) > 0 ==> a[0] == a[..PrefixLen(b, a)][0] == b[..PrefixLen(b, a)][0] == b[0];
  }

  /** Keys through a bit are longer than the terminator alone. */
  lemma KidWitnessLong(t: Tree, i: byte)
    requires t.Branch? && i <= 1 && Canon(Kid(t, i))
    ensures |KidWitness(t, i)| > 1
  {
  }

  lemma LessAppend(a: seq<byte>, b: seq<byte>, p: seq<byte>, q: seq<byte>)
    requires Less(a, b)
    ensures Less(a + p, b + q)
  {
    var m := PrefixLen(a, b);
    assert (a + p)[..m] == a[..m] && (b + q)[..m] == b[..m];
    LessAt(a + p, b + q, m);
  }

  lemma {:induction false} UnpackOrder(a: seq<byte>, b: seq<byte>)
    requires Less(a, b)
    ensures Less(UnpackAll(a), UnpackAll(b))
  {
    if a[0] == b[0] {
      assert a == [a[0]] + a[1..] && b == [a[0]] + b[1..];
      LessDrop([a[0]], a[1..], b[1..]);
      UnpackOrder(a[1..], b[1..]);
      LessDrop(ByteBits(a[0]), UnpackAll(a[1..]), UnpackAll(b[1..]));
    } else {
      LessAt(a, b, 0);
      Pow2Byte();
      BitsOfOrder(a[0], b[0], 8);
      LessAppend(ByteBits(a[0]), ByteBits(b[0]), UnpackAll(a[1..]), UnpackAll(b[1..]));
    }
  }

  /** The order of byte keys is the order of their bits. */
  lemma KeyOrderPreserved(a: seq<byte>, b: seq<byte>)
    requires Less(a, b)
    ensures Less(KeyToBinary(a), KeyToBinary(b))
  {
    UnpackOrder(a, b);
    LessAppend(UnpackAll(a), UnpackAll(b), [2], [2]);
  }

  /** Every key of t has the length of k and comes before it. */
  ghost predicate Below(t: Tree, k: seq<byte>) {
    forall q :: TermKey(q) && Get(t, q).Some? ==> |q| == |k| && Less(q, k)
  }

  /** Inserting k and moving on to a later key of the same length keeps everything below. */
  lemma BelowNext(t: Tree, k: seq<byte>, x: Tree, next: seq<byte>)
    requires Root(t) && TermKey(k) && x.Val? && Below(t, k)
    requires |next| == |k| && Less(k, next)
    ensures Below(Put(t, k, x), next)
  {
    forall q | TermKey(q) && Get(Put(t, k, x), q).Some?
      ensures |q| == |next| && Less(q, next)
    {
      PutGet(t, k, x, q);
      if q != k {
        LessTrans(q, k, next);
      }
    }
  }

  lemma BelowKid(t: Tree, k: seq<byte>, i: byte)
    requires t.Branch? && i <= 1 && |k| > 0 && k[0] == i && Below(t, k)
    ensures Below(Kid(t, i), k[1..])
  {
    forall q | TermKey(q) && Get(Kid(t, i), q).Some?
      ensures |q| == |k[1..]| && Less(q, k[1..])
    {
      TermKeyCons(i, q);
      assert ([i] + q)[1..] == q;
      LessDrop([i], q, k[1..]);
      assert k == [i] + k[1..];
    }
  }

  /** A full node without a value has both children, so the next key enters the right one. */
  lemma BelowBranch(t: Tree, k: seq<byte>)
    requires Canon(t) && t.Branch? && t.c2.Nil? && TermKey(k) && Below(t, k)
    ensures k[0] == 1 && |k| > 1 && Below(t.c1, k[1..])
  {
    var w := KidWitness(t, 1);
    TermKeyDrop(k, 0);
    assert |w| == |k| && Less(w, k);
    KidWitnessLong(t, 1);
    NotFirstLess(k, w);
    assert k[0] == 1;
    BelowKid(t, k, 1);
  }

  /** The next key follows a short node's key to its end, or leaves it to the right. */
  lemma BelowExt(t: Tree, k: seq<byte>)
    requires Canon(t) && t.Ext? && TermKey(k) && Below(t, k)
    ensures var m := PrefixLen(k, t.key);
            && m < |k|
            && (m == |t.key| ==> t.sub.Branch? && Below(t.sub, k[m..]))
            && (m < |t.key| ==> t.key[m] == 0 && k[m] == 1)
  {
    CanonPath(t.key, t.sub);
    Divergence(k, t.key);
    var m := PrefixLen(k, t.key);
    if m == |t.key| {
      BelowSub(t, k);
    } else {
      var w := Witness(t);
      assert t.key <= w;
      assert w[..m] == t.key[..m] && w[m] == t.key[m];
      LessAt(w, k, m);
      TermKeyDrop(w, m);
      TermKeyDrop(k, m);
    }
  }

  /** A short node's key leaves room for the terminator of the next key. */
  lemma BelowLength(t: Tree, k: seq<byte>)
    requires Canon(t) && t.Ext? && Below(t, k)
    ensures |t.key| <= |k| && (t.sub.Val? ==> |t.key| == |k|) && (t.sub.Branch? ==> |t.key| < |k|)
  {
    var w := Witness(t);
    if t.sub.Branch? {
      assert |w| == |t.key| + |Witness(t.sub)|;
    }
  }

  lemma BelowSub(t: Tree, k: seq<byte>)
    requires Canon(t) && t.Ext? && TermKey(k) && Below(t, k) && t.key <= k
    ensures |t.key| < |k| && t.sub.Branch? && Below(t.sub, k[|t.key|..])
  {
    if t.sub.Val? {
      TermKeyPrefix(t.key, k);
      assert Get(t, k).Some?;
      LessIrreflexive(k);
    } else {
      BelowLength(t, k);
      BelowUnder(t.key, t.sub, k[|t.key|..], k);
    }
  }

  lemma BelowUnder(p: seq<byte>, s: Tree, r: seq<byte>, k: seq<byte>)
    requires Bits(p) && Below(Ext(p, s), k) && k == p + r
    ensures Below(s, r)
  {
    forall q | TermKey(q) && Get(s, q).Some?
      ensures |q| == |r| && Less(q, r)
    {
      TermKeyConcat(p, q);
      GetUnder(p, s, q);
      LessDrop(p, q, r);
    }
  }

  /** The path of k into t: down the right side, ending where k leaves a short node to the right. */
  predicate Right(t: Tree, k: seq<byte>) {
    match t
    case Nil => true
    case Val(_) => false
    case Ext(key, s) =>
      var m := PrefixLen(k, key);
      && (if s.Val? then |key| == |k| else |key| < |k|)
      && (if m == |key| then s.Branch? && Right(s, k[m..]) else m + 1 < |k| && key[m] == 0 && k[m] == 1)
    case Branch(_, b, c) => c.Nil? && |k| > 1 && k[0] == 1 && Right(b, k[1..])
  }

  lemma {:induction false} BelowRight(t: Tree, k: seq<byte>)
    requires Root(t) && TermKey(k) && Below(t, k)
    ensures Right(t, k)
  {
    match t
    case Nil =>
    case Ext(key, s) =>
      BelowExt(t, k);
      BelowLength(t, k);
      var m := PrefixLen(k, key);
      TermKeyDrop(k, m);
      if m == |key| {
        BelowRight(s, k[m..]);
      }
    case Branch(_, b, c) =>
      BelowNoValue(t, k);
      BelowBranch(t, k);
      TermKeyDrop(k, 1);
      BelowRight(b, k[1..]);
  }

  /** Keys of one length are never prefixes of each other, so no full node holds a value. */
  lemma BelowNoValue(t: Tree, k: seq<byte>)
    requires Canon(t) && t.Branch? && Below(t, k)
    ensures t.c2.Nil?
  {
    if !t.c2.Nil? {
      var i: byte := if t.c0.Nil? then 1 else 0;
      assert |KidWitness(t, 2)| == 1;
      KidWitnessLong(t, i);
    }
  }
}
