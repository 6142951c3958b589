/**
  Key encodings of the binary trie.

  A key is handled in three forms: KEYBYTES (the caller's bytes), BINARY (one byte per bit,
  optionally closed by the terminator 2) and COMPACT (bits packed eight to a byte behind a flag:
  the top bit says whether a terminator follows, the next three give the number of leading odd bits).

  Shifting and or-ing bits into a byte is written as adding their weights; PackIsShiftOr says why
  that is the same byte.
 */
module Encoding {

  type byte = x: int | 0 <= x < 256

  datatype Option<+T> = None | Some(value: T)

  predicate Bits(s: seq<byte>) {
    forall i :: 0 <= i < |s| ==> s[i] <= 1
  }

  predicate HasTerm(s: seq<byte>) {
    |s| > 0 && s[|s| - 1] == 2
  }

  function Body(s: seq<byte>): seq<byte> {
    if HasTerm(s) then s[..|s| - 1] else s
  }

  /** A full key: bits closed by the terminator. */
  predicate TermKey(s: seq<byte>) {
    HasTerm(s) && Bits(s[..|s| - 1])
  }

  /** What a short node may hold as key: bits, with or without the terminator. */
  predicate Path(s: seq<byte>) {
    Bits(Body(s))
  }

  // ----- numbers and bits

  function Pow2(n: nat): (r: nat)
    ensures r > 0
  {
    if n == 0 then 1 else 2 * Pow2(n - 1)
  }

  lemma Pow2Byte()
    ensures Pow2(1) == 2 && Pow2(2) == 4 && Pow2(3) == 8 && Pow2(4) == 16
    ensures Pow2(5) == 32 && Pow2(6) == 64 && Pow2(7) == 128 && Pow2(8) == 256
  {
    assert Pow2(2) == 4;
    assert Pow2(4) == 16;
    assert Pow2(6) == 64;
  }

  lemma {:induction false} Pow2Mono(m: nat, n: nat)
    requires m <= n
    ensures Pow2(m) <= Pow2(n)
  {
    if m < n {
      Pow2Mono(m, n - 1);
    }
  }

  /** The n bits of v, high bit first. */
  function BitsOf(v: nat, n: nat): (r: seq<byte>)
    requires v < Pow2(n)
    ensures |r| == n && Bits(r)
  {
    if n == 0 then []
    else if v >= Pow2(n - 1) then [1] + BitsOf(v - Pow2(n - 1), n - 1)
    else [0] + BitsOf(v, n - 1)
  }

  function ValueOf(s: seq<byte>): (v: nat)
    requires Bits(s)
    ensures v < Pow2(|s|)
  {
    if |s| == 0 then 0 else (if s[0] == 1 then Pow2(|s| - 1) else 0) + ValueOf(s[1..])
  }

  lemma {:induction false} BitsOfValue(s: seq<byte>)
    requires Bits(s)
    ensures BitsOf(ValueOf(s), |s|) == s
  {
    if |s| != 0 {
      BitsOfValue(s[1..]);
      assert s == [s[0]] + s[1..];
    }
  }

  lemma {:induction false} ValueOfBits(v: nat, n: nat)
    requires v < Pow2(n)
    ensures ValueOf(BitsOf(v, n)) == v
  {
    if n != 0 {
      if v >= Pow2(n - 1) {
        ValueOfBits(v - Pow2(n - 1), n - 1);
      } else {
        ValueOfBits(v, n - 1);
      }
    }
  }

  function Zeros(n: nat): (r: seq<byte>)
    ensures |r| == n && Bits(r)
  {
    if n == 0 then [] else [0] + Zeros(n - 1)
  }

  lemma {:induction false} BitsOfPadded(v: nat, m: nat, n: nat)
    requires v < Pow2(m) && m <= n
    ensures v < Pow2(n) && BitsOf(v, n) == Zeros(n - m) + BitsOf(v, m)
  {
    if m < n {
      Pow2Mono(m, n - 1);
      BitsOfPadded(v, m, n - 1);
      LeadingZero(v, n - 1, n - 1 - m);
      Assoc([0], Zeros(n - 1 - m), BitsOf(v, m));
    }
  }

  lemma LeadingZero(v: nat, n: nat, k: nat)
    requires v < Pow2(n)
    ensures v < Pow2(n + 1) && BitsOf(v, n + 1) == [0] + BitsOf(v, n) && Zeros(k + 1) == [0] + Zeros(k)
  {
  }

  lemma {:induction false} ValueConcat4(a: seq<byte>, b: seq<byte>)
    requires Bits(a) && Bits(b) && |b| == 4
    ensures Bits(a + b) && ValueOf(a + b) == 16 * ValueOf(a) + ValueOf(b)
  {
    if |a| == 0 {
      assert a + b == b;
    } else {
      ValueConcat4(a[1..], b);
      assert (a + b)[1..] == a[1..] + b;
      Pow2Shift4(|a| - 1);
    }
  }

  lemma Pow2Shift4(n: nat)
    ensures Pow2(n + 4) == 16 * Pow2(n)
  {
    assert Pow2(n + 2) == 4 * Pow2(n);
  }

  /** The source's expression for one packed byte. */
  function Pack(s: seq<byte>): (b: byte)
    requires |s| == 8 && Bits(s)
  {
    128 * s[0] + 64 * s[1] + 32 * s[2] + 16 * s[3] + 8 * s[4] + 4 * s[5] + 2 * s[6] + s[7]
  }

  /** Pack adds weighted bits; on bytes that are bits this is the shift-and-or of the source. */
  lemma PackIsShiftOr(a: bv8, b: bv8, c: bv8, d: bv8, e: bv8, f: bv8, g: bv8, h: bv8)
    requires a <= 1 && b <= 1 && c <= 1 && d <= 1 && e <= 1 && f <= 1 && g <= 1 && h <= 1
    ensures ((a << 7) | (b << 6) | (c << 5) | (d << 4) | (e << 3) | (f << 2) | (g << 1) | h)
         == 128 * a + 64 * b + 32 * c + 16 * d + 8 * e + 4 * f + 2 * g + h
  {
  }

  lemma ValueOf4(s: seq<byte>)
    requires |s| == 4 && Bits(s)
    ensures ValueOf(s) == 8 * s[0] + 4 * s[1] + 2 * s[2] + s[3]
  {
    Pow2Byte();
    var t := s[2..];
    assert ValueOf(t[1..]) == s[3] + ValueOf(t[1..][1..]);
    assert ValueOf(t) == 2 * s[2] + s[3];
    assert s[1..][1..] == t;
  }

  lemma PackIsValue(s: seq<byte>)
    requires |s| == 8 && Bits(s)
    ensures Pack(s) == ValueOf(s)
  {
    var a, b := s[..4], s[4..];
    assert s == a + b;
    ValueOf4(a);
    ValueOf4(b);
    ValueConcat4(a, b);
  }

  /** The eight bits of a byte, by the source's chain of divisions. */
  function Unpack(b: byte): (r: seq<byte>)
    ensures |r| == 8
  {
    var b1 := b % 128;
    var b2 := b1 % 64;
    var b3 := b2 % 32;
    var b4 := b3 % 16;
    var b5 := b4 % 8;
    var b6 := b5 % 4;
    [b / 128, b1 / 64, b2 / 32, b3 / 16, b4 / 8, b5 / 4, b6 / 2, b6 % 2]
  }

  lemma DivTop(v: nat, w: nat)
    requires 0 < w && v < 2 * w
    ensures v / w == (if v >= w then 1 else 0)
    ensures v % w == (if v >= w then v - w else v)
  {
  }

  lemma BitStep(v: nat, n: nat, w: nat)
    requires w == Pow2(n) && v < 2 * w
    ensures v % w < Pow2(n) && v < Pow2(n + 1) && BitsOf(v, n + 1) == [v / w] + BitsOf(v % w, n)
  {
    DivTop(v, w);
  }

  lemma UnpackIsBitsOf(b: byte)
    ensures b < Pow2(8) && Unpack(b) == BitsOf(b, 8)
  {
    Pow2Byte();
    var b1 := b % 128;
    var b2 := b1 % 64;
    var b3 := b2 % 32;
    var b4 := b3 % 16;
    UnpackLow(b4);
    BitStep(b3, 4, 16);
    BitStep(b2, 5, 32);
    BitStep(b1, 6, 64);
    BitStep(b, 7, 128);
    assert Unpack(b) == [b / 128] + ([b1 / 64] + ([b2 / 32] + ([b3 / 16] + BitsOf(b4, 4))));
  }

  lemma UnpackLow(b4: nat)
    requires b4 < 16
    ensures b4 < Pow2(4)
    ensures var b5 := b4 % 8; var b6 := b5 % 4; BitsOf(b4, 4) == [b4 / 8, b5 / 4, b6 / 2, b6 % 2]
  {
    Pow2Byte();
    var b5 := b4 % 8;
    var b6 := b5 % 4;
    BitStep(b6 % 2, 0, 1);
    BitStep(b6, 1, 2);
    BitStep(b5, 2, 4);
    BitStep(b4, 3, 8);
  }

  function ByteBits(b: byte): (r: seq<byte>)
    ensures |r| == 8 && Bits(r)
  {
    Pow2Byte();
    BitsOf(b, 8)
  }

  function ByteValue(s: seq<byte>): byte
    requires |s| == 8 && Bits(s)
  {
    Pow2Byte();
    ValueOf(s)
  }

  // ----- KEYBYTES <-> BINARY

  function UnpackAll(bytes: seq<byte>): (r: seq<byte>)
    ensures |r| == 8 * |bytes| && Bits(r)
  {
    if |bytes| == 0 then [] else ByteBits(bytes[0]) + UnpackAll(bytes[1..])
  }

  function PackAll(bits: seq<byte>): (r: seq<byte>)
    requires |bits| % 8 == 0 && Bits(bits)
    ensures |r| == |bits| / 8
  {
    if |bits| == 0 then [] else [ByteValue(bits[..8])] + PackAll(bits[8..])
  }

  lemma UnpackCons(b: byte, rest: seq<byte>)
    ensures UnpackAll([b] + rest) == ByteBits(b) + UnpackAll(rest)
  {
    assert ([b] + rest)[1..] == rest;
  }

  lemma PackCons(byteBits: seq<byte>, rest: seq<byte>)
    requires |byteBits| == 8 && |rest| % 8 == 0 && Bits(byteBits) && Bits(rest)
    ensures Bits(byteBits + rest) && PackAll(byteBits + rest) == [ByteValue(byteBits)] + PackAll(rest)
  {
    var s := byteBits + rest;
    assert s[..8] == byteBits && s[8..] == rest;
  }

  /** One round of the packing loops: another byte is done, eight bits fewer are left. */
  lemma PackStep(done: seq<byte>, bits: seq<byte>, at: nat)
    requires |bits| % 8 == 0 && Bits(bits) && at % 8 == 0 && at + 8 <= |bits|
    requires done + PackAll(bits[at..]) == PackAll(bits)
    ensures done + [Pack(bits[at..at + 8])] + PackAll(bits[at + 8..]) == PackAll(bits)
  {
    var first, rest := bits[at..at + 8], bits[at + 8..];
    NextByte(bits, at);
    PackIsValue(first);
    PackCons(first, rest);
    Regroup(done, [Pack(first)], PackAll(rest), PackAll(bits[at..]), PackAll(bits));
  }

  lemma NextByte(bits: seq<byte>, at: nat)
    requires |bits| % 8 == 0 && at % 8 == 0 && at + 8 <= |bits|
    ensures bits[at..] == bits[at..at + 8] + bits[at + 8..] && |bits[at + 8..]| % 8 == 0
  {
  }

  lemma Regroup(done: seq<byte>, x: seq<byte>, rest: seq<byte>, left: seq<byte>, all: seq<byte>)
    requires left == x + rest && done + left == all
    ensures done + x + rest == all
  {
  }

  lemma TailSplit(s: seq<byte>, i: nat)
    requires i < |s|
    ensures s[i..] == [s[i]] + s[i + 1..]
  {
  }

  lemma UnpackStep(done: seq<byte>, bytes: seq<byte>, i: nat)
    requires i < |bytes| && done + UnpackAll(bytes[i..]) == UnpackAll(bytes)
    ensures done + ByteBits(bytes[i]) + UnpackAll(bytes[i + 1..]) == UnpackAll(bytes)
  {
    TailSplit(bytes, i);
    UnpackCons(bytes[i], bytes[i + 1..]);
    Regroup(done, ByteBits(bytes[i]), UnpackAll(bytes[i + 1..]), UnpackAll(bytes[i..]), UnpackAll(bytes));
  }

  lemma Assoc(a: seq<byte>, b: seq<byte>, c: seq<byte>)
    ensures a + b + c == a + (b + c)
  {
  }

  lemma LowBits(a: seq<byte>, pad: seq<byte>, odd: seq<byte>)
    requires |a| == 8 && a[4..] == pad + odd
    ensures a[8 - |odd|..] == odd
  {
    assert a[8 - |odd|..] == a[4..][4 - |odd|..];
  }

  lemma DropPad(a: seq<byte>, pad: nat, tail: seq<byte>, odd: seq<byte>, rest: seq<byte>)
    requires pad <= |a| && a[pad..] == odd && tail == a + rest
    ensures tail[pad..] == odd + rest
  {
  }

  lemma {:induction false} PackAllUnpackAll(bytes: seq<byte>)
    ensures PackAll(UnpackAll(bytes)) == bytes
  {
    if |bytes| != 0 {
      PackAllUnpackAll(bytes[1..]);
      PackCons(ByteBits(bytes[0]), UnpackAll(bytes[1..]));
      Pow2Byte();
      ValueOfBits(bytes[0], 8);
      assert bytes == [bytes[0]] + bytes[1..];
    }
  }

  lemma {:induction false} UnpackAllPackAll(bits: seq<byte>)
    requires |bits| % 8 == 0 && Bits(bits)
    ensures UnpackAll(PackAll(bits)) == bits
  {
    if |bits| != 0 {
      UnpackAllPackAll(bits[8..]);
      UnpackCons(ByteValue(bits[..8]), PackAll(bits[8..]));
      BitsOfValue(bits[..8]);
      assert bits == bits[..8] + bits[8..];
    }
  }

  function KeyToBinary(str: seq<byte>): (r: seq<byte>)
    ensures TermKey(r)
  {
    var r := UnpackAll(str) + [2];
    assert r[..|r| - 1] == UnpackAll(str);
    r
  }

  /** The length test fails with a panic in the source; here that is None. */
  function BinaryToKey(bin: seq<byte>): Option<seq<byte>>
    requires Path(bin)
  {
    if |Body(bin)| % 8 != 0 then None else Some(PackAll(Body(bin)))
  }

  lemma KeyRoundTrip(str: seq<byte>)
    ensures BinaryToKey(KeyToBinary(str)) == Some(str)
  {
    assert Body(KeyToBinary(str)) == UnpackAll(str);
    PackAllUnpackAll(str);
  }

  /** The first i bytes have been turned into bits. */
  ghost predicate Unpacking(cur: seq<byte>, str: seq<byte>, i: nat) {
    i <= |str| && |cur| == 8 * |str| + 1 && cur[..8 * i] + UnpackAll(str[i..]) == UnpackAll(str)
  }

  lemma UnpackingStep(cur: seq<byte>, str: seq<byte>, i: nat, next: seq<byte>)
    requires Unpacking(cur, str, i) && i < |str| && |next| == |cur|
    requires next[..8 * i] == cur[..8 * i] && next[8 * i..8 * i + 8] == ByteBits(str[i])
    ensures Unpacking(next, str, i + 1)
  {
    UnpackStep(cur[..8 * i], str, i);
    assert next[..8 * i + 8] == next[..8 * i] + next[8 * i..8 * i + 8];
  }

  /** One loop pass per byte, each writing the eight bits found by repeated division. */
  method KeybytesToBinary(str: seq<byte>) returns (r: seq<byte>)
    ensures r == KeyToBinary(str)
  {
    var l := |str| * 8 + 1;
    var nibbles := new byte[l];
    var i := 0;
    while i < |str|
      invariant Unpacking(nibbles[..], str, i)
    {
      ghost var cur := nibbles[..];
      WriteByte(nibbles, 8 * i, str[i]);
      UnpackingStep(cur, str, i, nibbles[..]);
      i := i + 1;
    }
    nibbles[l - 1] := 2;
    r := nibbles[..];
    assert str[i..] == [] && r[..l - 1] + [] == r[..l - 1];
  }

  method WriteByte(nibbles: array<byte>, at: nat, c: byte)
    requires at + 8 <= nibbles.Length
    modifies nibbles
    ensures nibbles[..][at..at + 8] == ByteBits(c)
    ensures nibbles[..][..at] == old(nibbles[..])[..at]
  {
    var b := c;
    nibbles[at] := b / 128;
    b := b % 128;
    nibbles[at + 1] := b / 64;
    b := b % 64;
    nibbles[at + 2] := b / 32;
    b := b % 32;
    nibbles[at + 3] := b / 16;
    b := b % 16;
    nibbles[at + 4] := b / 8;
    b := b % 8;
    nibbles[at + 5] := b / 4;
    b := b % 4;
    nibbles[at + 6] := b / 2;
    b := b % 2;
    nibbles[at + 7] := b;
    UnpackIsBitsOf(c);
    assert nibbles[..][at..at + 8] == Unpack(c);
  }

  /** From from on, bi bytes have been packed. */
  ghost predicate Packing(cur: seq<byte>, head: seq<byte>, nibbles: seq<byte>, bi: nat) {
    && |nibbles| % 8 == 0 && Bits(nibbles) && 8 * bi <= |nibbles| && |head| + |nibbles| / 8 <= |cur|
    && cur[..|head|] == head
    && cur[|head|..|head| + bi] + PackAll(nibbles[8 * bi..]) == PackAll(nibbles)
  }

  lemma PackingStep(cur: seq<byte>, head: seq<byte>, nibbles: seq<byte>, bi: nat)
    requires Packing(cur, head, nibbles, bi) && 8 * bi < |nibbles|
    ensures 8 * bi + 8 <= |nibbles| && |head| + bi < |cur| && Bits(nibbles[8 * bi..8 * bi + 8])
    ensures Packing(cur[|head| + bi := Pack(nibbles[8 * bi..8 * bi + 8])], head, nibbles, bi + 1)
  {
    PackStep(cur[|head|..|head| + bi], nibbles, 8 * bi);
    UpdateSlices(cur, |head|, |head| + bi, Pack(nibbles[8 * bi..8 * bi + 8]));
  }

  lemma UpdateSlices(cur: seq<byte>, base: nat, bi: nat, b: byte)
    requires base <= bi < |cur|
    ensures cur[bi := b][base..bi + 1] == cur[base..bi] + [b]
    ensures cur[bi := b][..base] == cur[..base]
  {
  }

  /** Packs eight entries of nibbles per byte; shared by both directions. */
  method DecodeNibbles(nibbles: seq<byte>, bytes: array<byte>, from: nat)
    requires |nibbles| % 8 == 0 && Bits(nibbles) && from + |nibbles| / 8 == bytes.Length
    modifies bytes
    ensures bytes[..] == old(bytes[..])[..from] + PackAll(nibbles)
  {
    ghost var head := bytes[..][..from];
    PackingInit(bytes[..], head, nibbles);
    var bi, ni := 0, 0;
    while ni < |nibbles|
      invariant ni == 8 * bi && Packing(bytes[..], head, nibbles, bi)
    {
      PackOne(bytes, from + bi, head, nibbles, bi, ni);
      bi, ni := bi + 1, ni + 8;
    }
    PackingDone(bytes[..], head, nibbles, bi);
  }

  method PackOne(bytes: array<byte>, at: nat, ghost head: seq<byte>, nibbles: seq<byte>, ghost bi: nat, ni: nat)
    requires Packing(bytes[..], head, nibbles, bi) && ni == 8 * bi && ni < |nibbles| && at == |head| + bi
    modifies bytes
    ensures Packing(bytes[..], head, nibbles, bi + 1)
  {
    PackingStep(bytes[..], head, nibbles, bi);
    SetByte(bytes, at, Pack(nibbles[ni..ni + 8]));
  }

  method SetByte(bytes: array<byte>, at: nat, b: byte)
    requires at < bytes.Length
    modifies bytes
    ensures bytes[..] == old(bytes[..])[at := b]
  {
    bytes[at] := b;
  }

  lemma PackingInit(cur: seq<byte>, head: seq<byte>, nibbles: seq<byte>)
    requires |nibbles| % 8 == 0 && Bits(nibbles) && |head| + |nibbles| / 8 <= |cur| && cur[..|head|] == head
    ensures Packing(cur, head, nibbles, 0)
  {
    assert nibbles[0..] == nibbles;
  }

  lemma PackingDone(cur: seq<byte>, head: seq<byte>, nibbles: seq<byte>, bi: nat)
    requires Packing(cur, head, nibbles, bi) && |nibbles| == 8 * bi && |cur| == |head| + bi
    ensures cur == head + PackAll(nibbles)
  {
    assert nibbles[8 * bi..] == [] && cur[|head|..] + [] == cur[|head|..];
    assert cur == cur[..|head|] + cur[|head|..];
  }

  method BinaryToKeybytes(bin: seq<byte>) returns (r: Option<seq<byte>>)
    requires Path(bin)
    ensures r == BinaryToKey(bin)
  {
    var bits := if HasTerm(bin) then bin[..|bin| - 1] else bin;
    if |bits| % 8 != 0 {
      return None;
    }
    var key := new byte[|bits| / 8];
    DecodeNibbles(bits, key, 0);
    r := Some(key[..]);
    assert key[..][..0] + PackAll(bits) == PackAll(bits);
  }

  // ----- BINARY <-> COMPACT

  function Flag(term: bool, odd: nat): byte
    requires odd < 8
  {
    (if term then 128 else 0) + 16 * odd
  }

  lemma ShortValueBound(s: seq<byte>)
    requires |s| < 8 && Bits(s)
    ensures ValueOf(s) < 128 && (|s| <= 4 ==> ValueOf(s) < 16)
  {
    Pow2Byte();
    Pow2Mono(|s|, 7);
    if |s| <= 4 {
      Pow2Mono(|s|, 4);
    }
  }

  /** The bits after the odd leading ones fill whole bytes. */
  function Whole(bits: seq<byte>): (r: seq<byte>)
    requires Bits(bits)
    ensures |r| % 8 == 0 && Bits(r) && |r| + |Odd(bits)| == |bits|
  {
    bits[|bits| % 8..]
  }

  function Odd(bits: seq<byte>): (r: seq<byte>)
    requires Bits(bits)
    ensures |r| == |bits| % 8 && Bits(r)
  {
    bits[..|bits| % 8]
  }

  /** The odd bits are packed with the flag when at most four, else into a byte of their own. */
  function Head(term: bool, odd: seq<byte>): (r: seq<byte>)
    requires |odd| < 8 && Bits(odd)
    ensures |r| == if |odd| > 4 then 2 else 1
  {
    ShortValueBound(odd);
    if |odd| > 4 then [Flag(term, |odd|), ValueOf(odd)] else [Flag(term, |odd|) + ValueOf(odd)]
  }

  function Compact(k: seq<byte>): seq<byte>
    requires Path(k)
  {
    Head(HasTerm(k), Odd(Body(k))) + PackAll(Whole(Body(k)))
  }

  /** The first byte holds the terminator in its highest bit and the number of odd bits in the next three. */
  lemma CompactShape(k: seq<byte>)
    requires Path(k)
    ensures |Compact(k)| == (|Body(k)| + 3) / 8 + 1
    ensures Compact(k)[0] / 128 == (if HasTerm(k) then 1 else 0) && Compact(k)[0] / 16 % 8 == |Body(k)| % 8
  {
    var odd := Odd(Body(k));
    ShortValueBound(odd);
    FlagByte(HasTerm(k), |odd|, if |odd| > 4 then 0 else ValueOf(odd));
  }

  lemma FlagByte(term: bool, odd: nat, low: nat)
    requires odd < 8 && low < 16
    ensures var b := Flag(term, odd) + low; b / 128 == (if term then 1 else 0) && b / 16 % 8 == odd
  {
  }

  /** None where the source would slice past the end of the buffer. */
  function Decompact(c: seq<byte>): Option<seq<byte>> {
    if |c| == 0 then Some(c) else FromBits(UnpackAll(c))
  }

  function FromBits(all: seq<byte>): Option<seq<byte>>
    requires |all| >= 8 && Bits(all)
  {
    var base := if all[0] == 0 then all else all + [2];
    var chop := Chop(4 * all[1] + 2 * all[2] + all[3]);
    if chop > |base| then None else Some(base[chop..])
  }

  function Chop(odd: nat): nat
    requires odd < 8
  {
    if odd > 4 then 16 - odd else 8 - odd
  }

  /** The unpacked form begins with the terminator bit and the odd count. */
  predicate HeadedBy(all: seq<byte>, term: bool, odd: nat) {
    && |all| >= 8
    && all[0] == (if term then 1 else 0)
    && 4 * (all[1] as int) + 2 * (all[2] as int) + all[3] as int == odd
  }

  lemma FlagBits(term: bool, odd: nat, low: nat, b: byte)
    requires odd < 8 && low < Pow2(4) && b == Flag(term, odd) + low
    ensures ByteBits(b)[4..] == BitsOf(low, 4)
    ensures HeadedBy(ByteBits(b), term, odd)
  {
    Pow2Byte();
    var high := (if term then 8 else 0) + odd;
    var x, y := BitsOf(high, 4), BitsOf(low, 4);
    ValueOfBits(high, 4);
    ValueOfBits(low, 4);
    ValueConcat4(x, y);
    BitsOfValue(x + y);
    ValueOf4(x);
  }

  lemma PackedHead(s: seq<byte>, n: nat)
    requires Bits(s) && |s| <= n
    ensures ValueOf(s) < Pow2(n) && BitsOf(ValueOf(s), n) == Zeros(n - |s|) + s
  {
    BitsOfPadded(ValueOf(s), |s|, n);
    BitsOfValue(s);
  }

  lemma ShortHeadByte(term: bool, odd: seq<byte>, first: byte)
    requires |odd| <= 4 && Bits(odd) && first == Flag(term, |odd|) + ValueOf(odd)
    ensures HeadedBy(ByteBits(first), term, |odd|) && ByteBits(first)[8 - |odd|..] == odd
  {
    PackedHead(odd, 4);
    FlagBits(term, |odd|, ValueOf(odd), first);
    LowBits(ByteBits(first), Zeros(4 - |odd|), odd);
  }

  lemma ShortHead(term: bool, odd: seq<byte>, first: byte, rest: seq<byte>)
    requires |odd| <= 4 && Bits(odd) && first == Flag(term, |odd|) + ValueOf(odd)
    ensures var all := UnpackAll([first] + rest);
            HeadedBy(all, term, |odd|) && |all| >= Chop(|odd|) && all[Chop(|odd|)..] == odd + UnpackAll(rest)
  {
    ShortHeadByte(term, odd, first);
    UnpackCons(first, rest);
    DropPad(ByteBits(first), 8 - |odd|, ByteBits(first) + UnpackAll(rest), odd, UnpackAll(rest));
  }

  lemma LongHead(term: bool, odd: seq<byte>, first: byte, second: byte, rest: seq<byte>)
    requires 4 < |odd| < 8 && Bits(odd) && first == Flag(term, |odd|) && second == ValueOf(odd)
    ensures var all := UnpackAll([first] + ([second] + rest));
            HeadedBy(all, term, |odd|) && |all| >= Chop(|odd|) && all[Chop(|odd|)..] == odd + UnpackAll(rest)
  {
    UnpackCons(first, [second] + rest);
    UnpackCons(second, rest);
    FlagBits(term, |odd|, 0, first);
    PackedHead(odd, 8);
    Assoc(ByteBits(first), ByteBits(second), UnpackAll(rest));
    Assoc(ByteBits(first), Zeros(8 - |odd|), odd);
    DropPad(ByteBits(first) + ByteBits(second), 16 - |odd|, ByteBits(first) + ByteBits(second) + UnpackAll(rest), odd,
        UnpackAll(rest));
  }

  lemma Chopped(all: seq<byte>, k: seq<byte>, odd: nat)
    requires |all| >= 8 && Bits(all)
    requires odd < 8 && HeadedBy(all, HasTerm(k), odd) && Chop(odd) <= |all| && all[Chop(odd)..] == Body(k)
    ensures FromBits(all) == Some(k)
  {
    if HasTerm(k) {
      assert (all + [2])[Chop(odd)..] == all[Chop(odd)..] + [2];
      assert k == Body(k) + [2];
    }
  }

  /** The first byte of the compact form tells the terminator and how many bits to chop off. */
  lemma CompactHead(k: seq<byte>)
    requires Path(k)
    ensures var odd, all := Odd(Body(k)), UnpackAll(Compact(k));
            && HeadedBy(all, HasTerm(k), |odd|) && |all| >= Chop(|odd|) && |all| >= 8
            && all[Chop(|odd|)..] == odd + Whole(Body(k))
  {
    var odd, whole := Odd(Body(k)), Whole(Body(k));
    UnpackAllPackAll(whole);
    var head := Head(HasTerm(k), odd);
    if |odd| <= 4 {
      ShortHead(HasTerm(k), odd, head[0], PackAll(whole));
    } else {
      LongHead(HasTerm(k), odd, head[0], head[1], PackAll(whole));
      assert Compact(k) == [head[0]] + ([head[1]] + PackAll(whole));
    }
  }

  /** Decoding the compact form gives back every path, with or without terminator. */
  lemma CompactRoundTrip(k: seq<byte>)
    requires Path(k)
    ensures Decompact(Compact(k)) == Some(k)
  {
    CompactHead(k);
    var bits := Body(k);
    assert bits == Odd(bits) + Whole(bits);
    Chopped(UnpackAll(Compact(k)), k, |Odd(bits)|);
  }

  lemma CompactInjective(a: seq<byte>, b: seq<byte>)
    requires Path(a) && Path(b) && Compact(a) == Compact(b)
    ensures a == b
  {
    CompactRoundTrip(a);
    CompactRoundTrip(b);
  }

  /** The loop that shifts the odd bits into place, the first one highest. */
  method OrBits(s: seq<byte>) returns (r: byte)
    requires |s| < 8 && Bits(s)
    ensures r == ValueOf(s)
  {
    var acc: int := 0;
    var i, ni := 0, |s| - 1;
    while i < |s|
      invariant 0 <= i <= |s| && ni == |s| - 1 - i
      invariant acc + ValueOf(s[i..]) == ValueOf(s)
    {
      assert s[i..][1..] == s[i + 1..];
      acc := acc + (if s[i] == 1 then Pow2(ni) else 0);
      i, ni := i + 1, ni - 1;
    }
    ShortValueBound(s);
    r := acc;
  }

  method BinaryToCompact(binary: seq<byte>) returns (r: seq<byte>)
    requires Path(binary)
    ensures r == Compact(binary)
  {
    var term := HasTerm(binary);
    var bits := if term then binary[..|binary| - 1] else binary;
    var odd, whole := bits[..|bits| % 8], bits[|bits| % 8..];
    assert odd == Odd(bits) && whole == Whole(bits);
    var buf := new byte[(|bits| + 3) / 8 + 1];
    var low := OrBits(odd);
    ShortValueBound(odd);
    var from := 1;
    buf[0] := (if term then 128 else 0) + 16 * |odd|;
    if |odd| > 4 {
      buf[1] := low;
      from := 2;
    } else {
      buf[0] := buf[0] + low;
    }
    assert buf[..][..from] == Head(term, odd);
    DecodeNibbles(whole, buf, from);
    r := buf[..];
  }

  /**
    Overwrites the buffer it is reading: the write index never passes the bits still to be read,
    and the first byte is stored last.
   */
  method BinaryToCompactInPlace(binary: array<byte>) returns (n: nat)
    requires binary.Length > 0 && Path(binary[..])
    modifies binary
    ensures n <= binary.Length
    ensures binary[..][..n] == Compact(old(binary[..]))
  {
    var binaryLen := binary.Length;
    var term := binary[binaryLen - 1] == 2;
    if term {
      binaryLen := binaryLen - 1;
    }
    n := CompactBody(binary, term, binaryLen);
  }

  method CompactBody(binary: array<byte>, term: bool, binaryLen: nat) returns (n: nat)
    requires binary.Length > 0 && Path(binary[..])
    requires term == HasTerm(binary[..]) && binaryLen == |Body(binary[..])|
    modifies binary
    ensures n <= binary.Length
    ensures binary[..][..n] == Compact(old(binary[..]))
  {
    ghost var was := binary[..];
    BodyParts(was, binaryLen);
    CompactLength(binaryLen);
    var odd := binaryLen % 8;
    n := (binaryLen + 3) / 8 + 1;
    var firstByte, bi := OddInPlace(binary, term, odd);
    ghost var mid := binary[..];
    Middle(was, mid, odd, binaryLen);
    PackDown(binary, odd, bi, binaryLen);
    ghost var cur := binary[..];
    SetByte(binary, 0, firstByte);
    InPlaceDone(was, mid, cur, binaryLen, bi, firstByte);
  }

  lemma BodyParts(was: seq<byte>, len: nat)
    requires Path(was) && len == |Body(was)|
    ensures Body(was) == was[..len] && Odd(Body(was)) == was[..len % 8] && Whole(Body(was)) == was[len % 8..len]
  {
  }

  lemma Middle(was: seq<byte>, mid: seq<byte>, odd: nat, len: nat)
    requires odd <= len <= |was| && |mid| == |was| && mid[odd..] == was[odd..]
    ensures mid[odd..len] == was[odd..len]
  {
    assert mid[odd..len] == mid[odd..][..len - odd];
    assert was[odd..len] == was[odd..][..len - odd];
  }

  /** The three parts of the result, with the first byte stored last. */
  lemma InPlaceDone(was: seq<byte>, mid: seq<byte>, cur: seq<byte>, len: nat, bi: nat, first: byte)
    requires |was| > 0 && Path(was) && |mid| == |was| == |cur| && len == |Body(was)|
    requires bi == (if len % 8 > 4 then 2 else 1) && bi + (len - len % 8) / 8 <= |was|
    requires [first] + (if len % 8 > 4 then [mid[1]] else []) == Head(HasTerm(was), Odd(Body(was)))
    requires cur[..bi] == mid[..bi] && cur[bi..bi + (len - len % 8) / 8] == PackAll(Whole(Body(was)))
    ensures cur[0 := first][..(len + 3) / 8 + 1] == Compact(was)
  {
    var n := (len + 3) / 8 + 1;
    CompactLength(len);
    StoreFirst(cur, first, bi, n);
    assert cur[1..bi] == cur[..bi][1..] == mid[..bi][1..];
    assert mid[..bi][1..] == if len % 8 > 4 then [mid[1]] else [];
  }

  lemma StoreFirst(cur: seq<byte>, first: byte, bi: nat, n: nat)
    requires 1 <= bi <= n <= |cur|
    ensures cur[0 := first][..n] == [first] + cur[1..bi] + cur[bi..n]
  {
  }

  lemma CompactLength(len: nat)
    ensures (len - len % 8) % 8 == 0
    ensures (len + 3) / 8 + 1 == (if len % 8 > 4 then 2 else 1) + (len - len % 8) / 8
    ensures (len + 3) / 8 <= len
  {
  }

  /** The odd bits: into the second byte if there are more than four, else into the first. */
  method OddInPlace(binary: array<byte>, term: bool, odd: nat) returns (firstByte: byte, bi: nat)
    requires odd < 8 && odd <= binary.Length && Bits(binary[..][..odd])
    modifies binary
    ensures bi == (if odd > 4 then 2 else 1) && (odd > 4 ==> bi <= binary.Length)
    ensures [firstByte] + (if odd > 4 then [binary[1]] else []) == Head(term, old(binary[..])[..odd])
    ensures binary[..][odd..] == old(binary[..])[odd..]
  {
    firstByte := (if term then 128 else 0) + 16 * odd;
    bi := 1;
    ShortValueBound(binary[..][..odd]);
    var low := OrBits(binary[..][..odd]);
    if odd > 4 {
      binary[1] := low;
      bi := bi + 1;
    } else {
      firstByte := firstByte + low;
    }
  }

  /** The packing loop of BinaryToCompactInPlace: reads from ni on, writes from bi on. */
  method PackDown(binary: array<byte>, odd: nat, base: nat, binaryLen: nat)
    requires odd <= binaryLen <= binary.Length && (binaryLen - odd) % 8 == 0
    requires 1 <= base <= odd + 1 && base + (binaryLen - odd) / 8 <= binary.Length
    requires Bits(binary[..][odd..binaryLen])
    modifies binary
    ensures binary[..][..base] == old(binary[..])[..base]
    ensures binary[..][base..base + (binaryLen - odd) / 8] == PackAll(old(binary[..])[odd..binaryLen])
  {
    ghost var head, bits := binary[..][..base], binary[..][odd..binaryLen];
    PackInvInit(binary[..], base, odd, binaryLen);
    var ni, bi := odd, base;
    while ni < binaryLen
      invariant base <= bi && ni == odd + 8 * (bi - base) && PackInv(binary[..], head, bits, odd, bi - base)
    {
      PackOneDown(binary, head, bits, odd, ni, bi);
      bi, ni := bi + 1, ni + 8;
    }
    PackInvDone(binary[..], head, bits, odd, bi - base);
  }

  lemma PackInvInit(cur: seq<byte>, base: nat, odd: nat, len: nat)
    requires odd <= len <= |cur| && (len - odd) % 8 == 0 && Bits(cur[odd..len])
    requires 1 <= base <= odd + 1 && base + (len - odd) / 8 <= |cur|
    ensures PackInv(cur, cur[..base], cur[odd..len], odd, 0)
  {
    PackingInit(cur, cur[..base], cur[odd..len]);
  }

  lemma PackInvDone(cur: seq<byte>, head: seq<byte>, bits: seq<byte>, odd: nat, k: nat)
    requires PackInv(cur, head, bits, odd, k) && |bits| == 8 * k
    ensures cur[..|head|] == head && cur[|head|..|head| + k] == PackAll(bits)
  {
    assert bits[8 * k..] == [] && cur[|head|..|head| + k] + [] == cur[|head|..|head| + k];
  }

  /** One byte is written where the bits have been read already. */
  method PackOneDown(binary: array<byte>, ghost head: seq<byte>, ghost bits: seq<byte>, odd: nat, ni: nat, bi: nat)
    requires |head| <= bi && ni == odd + 8 * (bi - |head|) && ni < odd + |bits|
    requires PackInv(binary[..], head, bits, odd, bi - |head|)
    modifies binary
    ensures PackInv(binary[..], head, bits, odd, bi - |head| + 1)
  {
    ghost var cur := binary[..];
    PackInvStep(cur, head, bits, odd, bi - |head|, ni, bi);
    var eight := binary[ni..ni + 8];
    assert eight == cur[ni..ni + 8];
    SetByte(binary, bi, Pack(eight));
  }

  /** The first k bytes are packed behind head; the bits still to be packed are untouched. */
  ghost predicate PackInv(cur: seq<byte>, head: seq<byte>, bits: seq<byte>, odd: nat, k: nat) {
    && Packing(cur, head, bits, k) && 1 <= |head| <= odd + 1 && odd + |bits| <= |cur|
    && cur[odd + 8 * k..odd + |bits|] == bits[8 * k..]
  }

  lemma PackInvStep(cur: seq<byte>, head: seq<byte>, bits: seq<byte>, odd: nat, k: nat, ni: nat, bi: nat)
    requires PackInv(cur, head, bits, odd, k) && 8 * k < |bits| && ni == odd + 8 * k && bi == |head| + k
    ensures ni + 8 <= odd + |bits| && bi < |cur| && Bits(cur[ni..ni + 8])
    ensures PackInv(cur[bi := Pack(cur[ni..ni + 8])], head, bits, odd, k + 1)
  {
    PackingStep(cur, head, bits, k);
    NextEight(cur[ni..odd + |bits|], bits[8 * k..]);
    assert cur[ni..ni + 8] == cur[ni..odd + |bits|][..8];
    assert bits[8 * k..8 * k + 8] == bits[8 * k..][..8];
    Untouched(cur, bi, ni + 8, odd + |bits|, Pack(cur[ni..ni + 8]));
    assert cur[ni + 8..odd + |bits|] == cur[ni..odd + |bits|][8..];
    assert bits[8 * k + 8..] == bits[8 * k..][8..];
  }

  lemma NextEight(a: seq<byte>, b: seq<byte>)
    requires a == b && |b| >= 8
    ensures a[..8] == b[..8] && a[8..] == b[8..]
  {
  }

  /** What is still to be read lies behind the byte that is written. */
  lemma Untouched(cur: seq<byte>, at: nat, from: nat, to: nat, b: byte)
    requires at < from <= to <= |cur|
    ensures cur[at := b][from..to] == cur[from..to]
  {
  }

  // ----- common prefixes

  /** The specification of prefixLen: the longest agreement of a and b. */
  function PrefixLen(a: seq<byte>, b: seq<byte>): (n: nat)
    ensures n <= |a| && n <= |b| && a[..n] == b[..n]
    ensures n < |a| && n < |b| ==> a[n] != b[n]
  {
    if |a| == 0 || |b| == 0 || a[0] != b[0] then 0
    else
      var m := PrefixLen(a[1..], b[1..]);
      TakeCons(a, m);
      TakeCons(b, m);
      m + 1
  }

  lemma TakeCons(a: seq<byte>, m: nat)
    requires m < |a|
    ensures a[..m + 1] == [a[0]] + a[1..][..m]
  {
    forall i | 0 <= i < m + 1
      ensures a[..m + 1][i] == ([a[0]] + a[1..][..m])[i]
    {
      assert i > 0 ==> a[1..][..m][i - 1] == a[1..][i - 1];
    }
  }

  lemma AgreeAt(a: seq<byte>, b: seq<byte>, n: nat, i: nat)
    requires i < n <= |a| && n <= |b| && a[..n] == b[..n]
    ensures a[i] == b[i]
  {
    assert a[i] == a[..n][i] == b[..n][i];
  }

  lemma PrefixLenUnique(a: seq<byte>, b: seq<byte>, n: nat)
    requires n <= |a| && n <= |b| && a[..n] == b[..n]
    requires n < |a| && n < |b| ==> a[n] != b[n]
    ensures n == PrefixLen(a, b)
  {
    var m := PrefixLen(a, b);
    if n < m {
      AgreeAt(a, b, m, n);
    } else if m < n {
      AgreeAt(a, b, n, m);
    }
  }

  method ComputePrefixLen(a: seq<byte>, b: seq<byte>) returns (i: nat)
    ensures i == PrefixLen(a, b)
  {
    var length := if |b| < |a| then |b| else |a|;
    i := 0;
    while i < length
      invariant 0 <= i <= length && a[..i] == b[..i]
    {
      if a[i] != b[i] {
        break;
      }
      assert a[..i + 1] == a[..i] + [a[i]] && b[..i + 1] == b[..i] + [b[i]];
      i := i + 1;
    }
    PrefixLenUnique(a, b, i);
  }
}
