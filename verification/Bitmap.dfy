/**
  Bitmaps of committee members, eight to a byte, updated in place. Keys gives the set of members a
  bitmap stands for; the scans over its bytes are set difference, ascending listing and cardinality.
 */
module Bitmap {

  function Mask(j: nat): bv8
    requires j < 8
  {
    if j == 0 then 1 else if j == 1 then 2 else if j == 2 then 4 else if j == 3 then 8
    else if j == 4 then 16 else if j == 5 then 32 else if j == 6 then 64 else 128
  }

  predicate Bit(v: bv8, j: nat)
    requires j < 8
  {
    v & Mask(j) != 0
  }

  function Shr(v: bv8, j: nat): bv8
    requires j <= 8
  {
    if j == 0 then v else if j == 1 then v >> 1 else if j == 2 then v >> 2 else if j == 3 then v >> 3
    else if j == 4 then v >> 4 else if j == 5 then v >> 5 else if j == 6 then v >> 6
    else if j == 7 then v >> 7 else 0
  }

  lemma ShrStep(v: bv8, j: nat)
    requires j < 8
    ensures Shr(v, j) >> 1 == Shr(v, j + 1)
    ensures (Shr(v, j) & 1 == 1) == Bit(v, j)
  {
  }

  lemma ShrZero(v: bv8, j: nat, k: nat)
    requires j <= k < 8 && Shr(v, j) == 0
    ensures !Bit(v, k)
  {
    if j == 0 {} else if j == 1 {} else if j == 2 {} else if j == 3 {}
    else if j == 4 {} else if j == 5 {} else if j == 6 {} else {}
  }

  lemma OrBit(a: bv8, b: bv8, j: nat)
    requires j < 8
    ensures Bit(OrByte(a, b), j) == (Bit(a, j) || Bit(b, j))
    ensures Bit(BeyondByte(a, b), j) == (Bit(b, j) && !Bit(a, j))
  {
  }

  lemma MaskBit(j: nat, k: nat)
    requires j < 8 && k < 8
    ensures Bit(Mask(j), k) == (j == k)
  {
  }

  /** The positions of the first n bits of v that are set, counted from base. */
  function Ones(v: bv8, base: nat, n: nat): seq<nat>
    requires n <= 8
  {
    if n == 0 then [] else Ones(v, base, n - 1) + if Bit(v, n - 1) then [base + n - 1] else []
  }

  lemma {:induction false} OnesTail(v: bv8, base: nat, j: nat, n: nat)
    requires j <= n <= 8 && Shr(v, j) == 0
    ensures Ones(v, base, n) == Ones(v, base, j)
  {
    if j < n {
      OnesTail(v, base, j, n - 1);
      ShrZero(v, j, n - 1);
    }
  }

  /** The inner loop of the scans: shift right while anything is left. */
  method ScanByte(v: bv8, base: nat) returns (r: seq<nat>)
    ensures r == Ones(v, base, 8)
  {
    r := [];
    var t, j := v, 0;
    while t > 0
      invariant j <= 8 && t == Shr(v, j) && r == Ones(v, base, j)
      decreases 8 - j
    {
      ShrStep(v, j);
      if t & 1 == 1 {
        r := r + [base + j];
      }
      t := t >> 1;
      j := j + 1;
    }
    OnesTail(v, base, j, 8);
  }

  // ----- listings

  predicate Ascending(r: seq<nat>) {
    forall i, j :: 0 <= i < j < |r| ==> r[i] < r[j]
  }

  ghost predicate Within(r: seq<nat>, lo: nat, hi: nat) {
    forall x :: x in r ==> lo <= x < hi
  }

  lemma AscendingConcat(a: seq<nat>, b: seq<nat>, lo: nat, mid: nat, hi: nat)
    requires Ascending(a) && Ascending(b) && Within(a, lo, mid) && Within(b, mid, hi) && lo <= mid <= hi
    ensures Ascending(a + b) && Within(a + b, lo, hi)
  {
    var r := a + b;
    forall i, j | 0 <= i < j < |r|
      ensures r[i] < r[j]
    {
      if i < |a| <= j {
        assert r[i] in a && r[j] in b;
      }
    }
  }

  lemma {:induction false} OnesOk(v: bv8, base: nat, n: nat)
    requires n <= 8
    ensures Ascending(Ones(v, base, n)) && Within(Ones(v, base, n), base, base + n)
    ensures forall x :: x in Ones(v, base, n) <==> base <= x < base + n && Bit(v, x - base)
  {
    if n > 0 {
      OnesOk(v, base, n - 1);
      var last: seq<nat> := if Bit(v, n - 1) then [base + n - 1] else [];
      AscendingConcat(Ones(v, base, n - 1), last, base, base + n - 1, base + n);
      OneMore(v, base, n, Ones(v, base, n - 1), last);
    }
  }

  lemma OneMore(v: bv8, base: nat, n: nat, front: seq<nat>, last: seq<nat>)
    requires 0 < n <= 8 && last == if Bit(v, n - 1) then [base + n - 1] else []
    requires forall x :: x in front <==> base <= x < base + n - 1 && Bit(v, x - base)
    ensures forall x :: x in front + last <==> base <= x < base + n && Bit(v, x - base)
  {
    forall x
      ensures x in front + last <==> base <= x < base + n && Bit(v, x - base)
    {
      assert x in last <==> x == base + n - 1 && Bit(v, n - 1);
    }
  }

  predicate HasKeyAt(s: seq<bv8>, x: nat) {
    x / 8 < |s| && Bit(s[x / 8], x % 8)
  }

  /** The members a bitmap stands for. */
  function KeySet(s: seq<bv8>): set<nat> {
    set x | 0 <= x < 8 * |s| && HasKeyAt(s, x)
  }

  /** The set bits of the first n bytes, byte by byte. */
  function Listing(s: seq<bv8>, n: nat): seq<nat>
    requires n <= |s|
  {
    if n == 0 then [] else Listing(s, n - 1) + Ones(s[n - 1], 8 * (n - 1), 8)
  }

  lemma {:induction false} ListingOk(s: seq<bv8>, n: nat)
    requires n <= |s|
    ensures Ascending(Listing(s, n)) && Within(Listing(s, n), 0, 8 * n)
    ensures forall x: nat :: x in Listing(s, n) <==> x < 8 * n && HasKeyAt(s, x)
  {
    if n > 0 {
      var b := 8 * (n - 1);
      ListingOk(s, n - 1);
      OnesOk(s[n - 1], b, 8);
      AscendingConcat(Listing(s, n - 1), Ones(s[n - 1], b, 8), 0, b, 8 * n);
      forall x: nat
        ensures x in Listing(s, n) <==> x < 8 * n && HasKeyAt(s, x)
      {
        if b <= x < 8 * n {
          assert x / 8 == n - 1 && x % 8 == x - b;
        }
      }
    }
  }

  /** r lists the set in ascending order, each member once. */
  ghost predicate Lists(r: seq<nat>, keys: set<nat>) {
    Ascending(r) && forall x :: x in r <==> x in keys
  }

  lemma {:induction false} ListsSize(r: seq<nat>, keys: set<nat>)
    requires Lists(r, keys)
    ensures |r| == |keys|
  {
    if |r| > 0 {
      var last, front := r[|r| - 1], r[..|r| - 1];
      assert r == front + [last];
      ListsSize(front, keys - {last});
    }
  }

  /** There is only one ascending listing of a set. */
  lemma {:induction false} ListsUnique(p: seq<nat>, q: seq<nat>, keys: set<nat>)
    requires Lists(p, keys) && Lists(q, keys)
    ensures p == q
  {
    ListsSize(p, keys);
    ListsSize(q, keys);
    if |p| > 0 {
      var a, b := p[|p| - 1], q[|q| - 1];
      assert a in q && b in p;
      LastIsGreatest(p, b);
      LastIsGreatest(q, a);
      ListsFront(p, keys);
      ListsFront(q, keys);
      ListsUnique(p[..|p| - 1], q[..|q| - 1], keys - {a});
    }
  }

  lemma LastIsGreatest(p: seq<nat>, x: nat)
    requires Ascending(p) && x in p
    ensures |p| > 0 && x <= p[|p| - 1]
  {
    var i :| 0 <= i < |p| && p[i] == x;
  }

  lemma ListsFront(p: seq<nat>, keys: set<nat>)
    requires Lists(p, keys) && |p| > 0
    ensures Lists(p[..|p| - 1], keys - {p[|p| - 1]})
  {
    assert p == p[..|p| - 1] + [p[|p| - 1]];
  }

  lemma ListingLists(s: seq<bv8>)
    ensures Lists(Listing(s, |s|), KeySet(s))
  {
    ListingOk(s, |s|);
  }

  // ----- the bitmap operations

  method NewBitmap(len: nat) returns (b: array<bv8>)
    ensures fresh(b) && KeySet(b[..]) == {} && len <= 8 * b.Length < len + 8
  {
    var size := (len + 7) / 8;
    b := new bv8[size];
    for i := 0 to size
      invariant forall k :: 0 <= k < i ==> b[k] == 0
    {
      b[i] := 0;
    }
  }

  /** Like SetKey, a key past the end is an index out of range in the source. */
  method HasKey(b: array<bv8>, x: nat) returns (has: bool)
    requires x < 8 * b.Length
    ensures has <==> x in KeySet(b[..])
  {
    has := b[x / 8] & Mask(x % 8) != 0;
  }

  lemma SetBitAt(v: bv8, j: nat, k: nat)
    requires j < 8 && k < 8
    ensures Bit(v | Mask(j), k) <==> Bit(v, k) || k == j
  {
    OrBit(v, Mask(j), k);
    MaskBit(j, k);
  }

  lemma SetBit(s: seq<bv8>, x: nat, i: nat, j: nat)
    requires x == 8 * i + j && i < |s| && j < 8
    ensures KeySet(s[i := s[i] | Mask(j)]) == KeySet(s) + {x}
  {
    var w := s[i] | Mask(j);
    forall y: nat
      ensures HasKeyAt(s[i := w], y) <==> HasKeyAt(s, y) || y == x
    {
      if y / 8 == i {
        SetBitAt(s[i], j, y % 8);
      }
    }
  }

  method SetKey(b: array<bv8>, x: nat)
    requires x < 8 * b.Length
    modifies b
    ensures KeySet(b[..]) == old(KeySet(b[..])) + {x}
  {
    SetBit(b[..], x, x / 8, x % 8);
    b[x / 8] := b[x / 8] | Mask(x % 8);
    assert b[..] == old(b[..])[x / 8 := old(b[x / 8]) | Mask(x % 8)];
  }

  function OrByte(a: bv8, b: bv8): bv8 {
    a | b
  }

  function BeyondByte(a: bv8, b: bv8): bv8 {
    (a & b) ^ b
  }

  function Or(a: seq<bv8>, b: seq<bv8>): seq<bv8>
    requires |a| == |b|
  {
    seq(|a|, i requires 0 <= i < |a| => OrByte(a[i], b[i]))
  }

  /** What b has beyond a, byte by byte. */
  function Beyond(a: seq<bv8>, b: seq<bv8>): seq<bv8>
    requires |a| == |b|
  {
    seq(|a|, i requires 0 <= i < |a| => BeyondByte(a[i], b[i]))
  }

  lemma OrKeysAt(a: seq<bv8>, b: seq<bv8>, x: nat)
    requires |a| == |b|
    ensures HasKeyAt(Or(a, b), x) <==> HasKeyAt(a, x) || HasKeyAt(b, x)
    ensures HasKeyAt(Beyond(a, b), x) <==> HasKeyAt(b, x) && !HasKeyAt(a, x)
  {
    if x / 8 < |a| {
      OrBitAt(a, b, x / 8, x % 8);
    }
  }

  lemma OrBitAt(a: seq<bv8>, b: seq<bv8>, i: nat, j: nat)
    requires |a| == |b| && i < |a| && j < 8
    ensures Bit(Or(a, b)[i], j) <==> Bit(a[i], j) || Bit(b[i], j)
    ensures Bit(Beyond(a, b)[i], j) <==> Bit(b[i], j) && !Bit(a[i], j)
  {
    assert Or(a, b)[i] == OrByte(a[i], b[i]) && Beyond(a, b)[i] == BeyondByte(a[i], b[i]);
    OrBit(a[i], b[i], j);
  }

  lemma OrKeys(a: seq<bv8>, b: seq<bv8>)
    requires |a| == |b|
    ensures KeySet(Or(a, b)) == KeySet(a) + KeySet(b)
    ensures KeySet(Beyond(a, b)) == KeySet(b) - KeySet(a)
  {
    forall x: nat
      ensures HasKeyAt(Or(a, b), x) <==> HasKeyAt(a, x) || HasKeyAt(b, x)
      ensures HasKeyAt(Beyond(a, b), x) <==> HasKeyAt(b, x) && !HasKeyAt(a, x)
    {
      OrKeysAt(a, b, x);
    }
  }

  /** Adds the keys of x and lists those that are new. Bitmaps of different sizes do not merge. */
  method Merge(b: array<bv8>, x: array<bv8>) returns (newKeys: seq<nat>)
    modifies b
    ensures b.Length != x.Length ==> newKeys == [] && b[..] == old(b[..])
    ensures b.Length == x.Length ==>
              && KeySet(b[..]) == old(KeySet(b[..])) + old(KeySet(x[..]))
              && Lists(newKeys, old(KeySet(x[..])) - old(KeySet(b[..])))
  {
    newKeys := [];
    if b.Length != x.Length {
      return;
    }
    ghost var s, t := b[..], x[..];
    ghost var u, w := Or(s, t), Beyond(s, t);
    for i := 0 to b.Length
      invariant forall k :: 0 <= k < i ==> b[k] == u[k]
      invariant forall k :: i <= k < b.Length ==> b[k] == s[k] && x[k] == t[k]
      invariant newKeys == Listing(w, i)
    {
      assert u[i] == OrByte(b[i], x[i]) && w[i] == BeyondByte(b[i], x[i]);
      var found := ScanByte(BeyondByte(b[i], x[i]), i * 8);
      newKeys := newKeys + found;
      b[i] := OrByte(b[i], x[i]);
    }
    assert b[..] == u;
    OrKeys(s, t);
    ListingLists(Beyond(s, t));
  }

  method GetElement(b: array<bv8>) returns (elements: seq<nat>)
    ensures Lists(elements, KeySet(b[..]))
  {
    elements := [];
    for i := 0 to b.Length
      invariant elements == Listing(b[..], i)
    {
      var found := ScanByte(b[i], i * 8);
      elements := elements + found;
    }
    ListingLists(b[..]);
  }

  method CountByte(v: bv8) returns (n: nat)
    ensures forall base :: n == |Ones(v, base, 8)|
  {
    n := 0;
    var t, j := v, 0;
    while t > 0
      invariant j <= 8 && t == Shr(v, j) && n == |Ones(v, 0, j)|
      decreases 8 - j
    {
      ShrStep(v, j);
      if t & 1 == 1 {
        n := n + 1;
      }
      t := t >> 1;
      j := j + 1;
    }
    OnesTail(v, 0, j, 8);
    forall base: nat
      ensures |Ones(v, base, 8)| == |Ones(v, 0, 8)|
    {
      OnesShift(v, base, 8);
    }
  }

  lemma {:induction false} OnesShift(v: bv8, base: nat, n: nat)
    requires n <= 8
    ensures |Ones(v, base, n)| == |Ones(v, 0, n)|
  {
    if n > 0 {
      OnesShift(v, base, n - 1);
    }
  }

  method GetSize(b: array<bv8>) returns (n: nat)
    ensures n == |KeySet(b[..])|
  {
    n := 0;
    for i := 0 to b.Length
      invariant n == |Listing(b[..], i)|
    {
      var k := CountByte(b[i]);
      assert k == |Ones(b[i], 8 * i, 8)|;
      n := n + k;
    }
    ListingLists(b[..]);
    ListsSize(Listing(b[..], b.Length), KeySet(b[..]));
  }
}
