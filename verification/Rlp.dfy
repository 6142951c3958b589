/**
  Ideal hashing and RLP.

  An RLP item is a string or a list of items; encoding and decoding are left implicit, so equal
  encodings are equal items. A string is either raw bytes or the 32-byte Keccak digest of an item.
  Digests are free constructors: they are injective and an item never contains its own digest.
 */
module Rlp {
  import opened Encoding

  datatype Blob = Raw(bytes: seq<byte>) | Keccak(preimage: Item)

  datatype Item = Str(blob: Blob) | List(items: seq<Item>)

  const HASH_LEN := 32

  function Len(b: Blob): nat {
    match b
    case Raw(s) => |s|
    case Keccak(_) => HASH_LEN
  }

  /** Number of bytes needed to write n in big-endian form. */
  function ByteCount(n: nat): nat {
    if n < 256 then 1 else 1 + ByteCount(n / 256)
  }

  /** Bytes of an RLP header for a payload of n bytes. */
  function HeadLen(n: nat): nat {
    if n < 56 then 1 else 1 + ByteCount(n)
  }

  /** Length in bytes of the RLP encoding. */
  function Size(i: Item): nat {
    match i
    case Str(Raw(s)) => if |s| == 1 && s[0] < 128 then 1 else HeadLen(|s|) + |s|
    case Str(Keccak(_)) => HeadLen(HASH_LEN) + HASH_LEN
    case List(items) => var n := PayloadSize(items); HeadLen(n) + n
  }

  function PayloadSize(items: seq<Item>): nat {
    if |items| == 0 then 0 else Size(items[0]) + PayloadSize(items[1..])
  }

  const EMPTY_ITEM := Str(Raw([]))

  /** The root of an empty trie: the digest of the empty string's encoding. */
  const EMPTY_ROOT := Keccak(EMPTY_ITEM)

  /** How deeply digests are nested in a blob. */
  function Height(b: Blob): nat {
    match b
    case Raw(_) => 0
    case Keccak(i) => 1 + Depth(i)
  }

  function Depth(i: Item): nat {
    match i
    case Str(b) => Height(b)
    case List(items) => DepthAll(items)
  }

  function DepthAll(items: seq<Item>): nat {
    if |items| == 0 then 0
    else var a, b := Depth(items[0]), DepthAll(items[1..]); if a > b then a else b
  }

  lemma {:induction false} DepthAt(items: seq<Item>, i: nat)
    requires i < |items|
    ensures Depth(items[i]) <= DepthAll(items)
  {
    if i > 0 {
      DepthAt(items[1..], i - 1);
    }
  }
}
