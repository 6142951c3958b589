/**
  RLP of unsigned 64-bit integers and of the account record that holds one: what is stored in the
  account trie and what transactions and chunks are indexed by.
 */
module Uints {
  import opened Encoding

  const TWO_64: nat := 0x1_0000_0000_0000_0000

  function BigEndian(n: nat): (r: seq<byte>)
    ensures n > 0 ==> |r| > 0 && r[0] > 0
  {
    if n == 0 then [] else BigEndian(n / 256) + [n % 256]
  }

  function Number(s: seq<byte>): nat {
    if |s| == 0 then 0 else Number(s[..|s| - 1]) * 256 + s[|s| - 1]
  }

  lemma {:induction false} NumberOfBigEndian(n: nat)
    ensures Number(BigEndian(n)) == n
  {
    if n > 0 {
      var r := BigEndian(n);
      NumberOfBigEndian(n / 256);
      assert r[..|r| - 1] == BigEndian(n / 256);
    }
  }

  function Power256(k: nat): nat {
    if k == 0 then 1 else 256 * Power256(k - 1)
  }

  lemma {:induction false} BigEndianLength(n: nat, k: nat)
    requires n < Power256(k)
    ensures |BigEndian(n)| <= k
  {
    if n > 0 {
      assert n / 256 < Power256(k - 1);
      BigEndianLength(n / 256, k - 1);
    }
  }

  lemma EightBytes(n: nat)
    requires n < TWO_64
    ensures |BigEndian(n)| <= 8
  {
    assert Power256(4) == 0x1_0000_0000;
    assert Power256(8) == TWO_64 by {
      assert Power256(5) == 256 * Power256(4);
      assert Power256(6) == 256 * Power256(5);
      assert Power256(7) == 256 * Power256(6);
    }
    BigEndianLength(n, 8);
  }

  /** Zero is the empty string, a number below 128 its own byte, others a string with a length. */
  function RlpUint(n: nat): (r: seq<byte>)
    requires n < TWO_64
    ensures 1 <= |r| <= 9
  {
    EightBytes(n);
    if n == 0 then [0x80] else if n < 128 then [n] else [0x80 + |BigEndian(n)|] + BigEndian(n)
  }

  /** Leading zeros and lengths that are not needed are rejected. */
  function DecodeUint(s: seq<byte>): Option<nat> {
    if |s| == 0 then None
    else if s[0] < 0x80 then (if |s| == 1 && s[0] > 0 then Some(s[0]) else None)
    else
      var body := s[1..];
      if s[0] != 0x80 + |body| || |body| > 8 then None
      else if |body| > 0 && (body[0] == 0 || (|body| == 1 && body[0] < 128)) then None
      else Some(Number(body))
  }

  lemma OneByte(s: seq<byte>)
    requires |s| == 1
    ensures Number(s) == s[0]
  {
    assert Number(s[..0]) == 0;
  }

  lemma DecodeLong(body: seq<byte>, n: nat)
    requires 0 < |body| <= 8 && body[0] > 0 && Number(body) == n >= 128
    ensures DecodeUint([0x80 + |body|] + body) == Some(n)
  {
    var s := [0x80 + |body|] + body;
    assert s[1..] == body;
    if |body| == 1 {
      OneByte(body);
    }
  }

  lemma UintRoundTrip(n: nat)
    requires n < TWO_64
    ensures DecodeUint(RlpUint(n)) == Some(n)
  {
    if n >= 128 {
      EightBytes(n);
      NumberOfBigEndian(n);
      DecodeLong(BigEndian(n), n);
    }
  }

  lemma UintInjective(m: nat, n: nat)
    requires m < TWO_64 && n < TWO_64 && RlpUint(m) == RlpUint(n)
    ensures m == n
  {
    UintRoundTrip(m);
    UintRoundTrip(n);
  }

  /** An account is a list of one field, its balance. */
  function AccountBytes(balance: nat): (r: seq<byte>)
    requires balance < TWO_64
    ensures |r| > 0
  {
    [0xC0 + |RlpUint(balance)|] + RlpUint(balance)
  }

  function DecodeAccount(s: seq<byte>): Option<nat> {
    if |s| == 0 || s[0] != 0xC0 + |s| - 1 then None else DecodeUint(s[1..])
  }

  lemma AccountRoundTrip(balance: nat)
    requires balance < TWO_64
    ensures DecodeAccount(AccountBytes(balance)) == Some(balance)
  {
    assert AccountBytes(balance)[1..] == RlpUint(balance);
    UintRoundTrip(balance);
  }
}
