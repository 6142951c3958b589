/**
  In-memory trie nodes: subtrees may be left unloaded behind a hash node, and every short or full
  node carries a cached hash and a dirty flag. Represents ties a node to the tree it stands for.
 */
module Nodes {
  import opened Encoding
  import opened Rlp
  import T = Trees

  datatype Flags = Flags(hash: Option<Blob>, dirty: bool)

  datatype Node =
    | Nil
    | Value(v: Blob)
    | Hash(h: Blob)
    | Short(key: seq<byte>, child: Node, flags: Flags)
    | Full(c0: Node, c1: Node, c2: Node, flags: Flags)

  /** Encoded nodes by digest: what resolveHash can read. */
  type Store = map<Blob, Item>

  /** Missing is the MissingNodeError; Bad a decoding error; Panic a run-time panic of the source. */
  datatype Outcome<+T> = Done(value: T) | Missing(hash: Blob) | Bad | Panic

  const NEW_FLAG := Flags(None, true)

  function Kid(n: Node, s: byte): Node
    requires n.Full? && s <= 2
  {
    if s == 0 then n.c0 else if s == 1 then n.c1 else n.c2
  }

  /** A copy of a full node with one child replaced; the flags are the caller's. */
  function SetKid(n: Node, s: byte, x: Node, f: Flags): Node
    requires n.Full? && s <= 2
  {
    if s == 0 then n.(c0 := x, flags := f) else if s == 1 then n.(c1 := x, flags := f) else n.(c2 := x, flags := f)
  }

  // ----- decoding

  function Decode(item: Item, hash: Option<Blob>): (r: Outcome<Node>)
    ensures r.Done? ==> r.value.Short? || r.value.Full?
    ensures !r.Missing?
    decreases item, 1
  {
    match item
    case Str(_) => Bad
    case List(items) =>
      if |items| == 2 then DecodeShort(items, hash)
      else if |items| == 3 then DecodeFull(items, hash)
      else Bad
  }

  function DecodeShort(items: seq<Item>, hash: Option<Blob>): (r: Outcome<Node>)
    requires |items| == 2
    ensures r.Done? ==> r.value.Short?
    ensures !r.Missing?
    decreases items, 0
  {
    if !items[0].Str? || !items[0].blob.Raw? then Bad else
    var key := Decompact(items[0].blob.bytes);
    if key.None? then Panic
    else if HasTerm(key.value) then
      if items[1].Str? then Done(Short(key.value, Value(items[1].blob), Flags(hash, false))) else Bad
    else
      var c := DecodeRef(items[1]);
      if c.Done? then Done(Short(key.value, c.value, Flags(hash, false))) else c
  }

  function DecodeFull(items: seq<Item>, hash: Option<Blob>): (r: Outcome<Node>)
    requires |items| == 3
    ensures r.Done? ==> r.value.Full?
    ensures !r.Missing?
    decreases items, 0
  {
    var a := DecodeRef(items[0]);
    if !a.Done? then a else
    var b := DecodeRef(items[1]);
    if !b.Done? then b else
    if !items[2].Str? then Bad else
    var v := items[2].blob;
    Done(Full(a.value, b.value, if Len(v) > 0 then Value(v) else Nil, Flags(hash, false)))
  }

  function DecodeRef(item: Item): (r: Outcome<Node>)
    ensures !r.Missing?
    decreases item, 2
  {
    match item
    case List(_) => if Size(item) > HASH_LEN then Bad else Decode(item, None)
    case Str(b) =>
      if Len(b) == 0 then Done(Nil) else if Len(b) == HASH_LEN then Done(Hash(b)) else Bad
  }

  /** A stored node that does not decode makes the source panic. */
  function Resolve(db: Store, h: Blob): (r: Outcome<Node>)
    ensures r.Done? ==> r.value.Short? || r.value.Full?
    ensures r.Missing? ==> r.hash == h && h !in db
  {
    if h !in db then Missing(h)
    else
      var r := Decode(db[h], Some(h));
      if r.Bad? then Panic else r
  }

  // ----- what a node stands for

  predicate FlagOk(f: Flags, t: T.Tree, top: bool) {
    && (f.hash.Some? ==> f.hash.value == Keccak(T.Enc(t)) && (top || Size(T.Enc(t)) >= HASH_LEN))
    && (f.hash.None? && !f.dirty ==> !top && Size(T.Enc(t)) < HASH_LEN)
  }

  /** Every loaded node that is referred to by hash has that hash cached. */
  ghost predicate AllHashed(n: Node, t: T.Tree, top: bool) {
    match n
    case Nil => true
    case Value(_) => true
    case Hash(_) => true
    case Short(_, c, f) =>
      && t.Ext? && AllHashed(c, t.sub, false)
      && (top || Size(T.Enc(t)) >= HASH_LEN ==> f.hash.Some?)
    case Full(a, b, c, f) =>
      && t.Branch? && AllHashed(a, t.c0, false) && AllHashed(b, t.c1, false) && AllHashed(c, t.c2, false)
      && (top || Size(T.Enc(t)) >= HASH_LEN ==> f.hash.Some?)
  }

  /**
    The tree a node stands for. Cached hashes are right and complete below; except for the root,
    only nodes of at least 32 encoded bytes have one, and clean nodes without one are embedded.
   */
  ghost predicate Represents(n: Node, t: T.Tree, top: bool) {
    match n
    case Nil => t.Nil?
    case Value(v) => t == T.Val(v)
    case Hash(h) => T.Canon(t) && h == Keccak(T.Enc(t)) && (top || Size(T.Enc(t)) >= HASH_LEN)
    case Short(k, c, f) =>
      && t.Ext? && t.key == k && FlagOk(f, t, top)
      && Represents(c, t.sub, false) && (f.hash.Some? ==> AllHashed(c, t.sub, false))
    case Full(a, b, c, f) =>
      && t.Branch? && FlagOk(f, t, top)
      && Represents(a, t.c0, false) && Represents(b, t.c1, false) && Represents(c, t.c2, false)
      && (f.hash.Some? ==> AllHashed(a, t.c0, false) && AllHashed(b, t.c1, false) && AllHashed(c, t.c2, false))
  }

  /** Every key of the store is the digest of what it holds. */
  ghost predicate StoreOk(db: Store) {
    forall h :: h in db ==> h == Keccak(db[h])
  }

  /** Every node of t that is referred to by hash can be read. */
  ghost predicate Stored(db: Store, t: T.Tree) {
    && (T.Canon(t) && Size(T.Enc(t)) >= HASH_LEN ==> Keccak(T.Enc(t)) in db)
    && match t
       case Ext(_, s) => Stored(db, s)
       case Branch(a, b, c) => Stored(db, a) && Stored(db, b) && Stored(db, c)
       case _ => true
  }

  /** A node that may be handed out by its hash alone: it and all below it can be read. */
  ghost predicate Readable(db: Store, t: T.Tree) {
    Keccak(T.Enc(t)) in db && Stored(db, t)
  }

  /** Whatever a node leaves unloaded, or claims to be clean, can be read. */
  ghost predicate Backed(db: Store, n: Node, t: T.Tree) {
    match n
    case Nil => true
    case Value(_) => true
    case Hash(_) => Readable(db, t)
    case Short(_, c, f) =>
      && t.Ext? && Backed(db, c, t.sub)
      && (f.hash.Some? && !f.dirty ==> Readable(db, t))
    case Full(a, b, c, f) =>
      && t.Branch? && Backed(db, a, t.c0) && Backed(db, b, t.c1) && Backed(db, c, t.c2)
      && (f.hash.Some? && !f.dirty ==> Readable(db, t))
  }

  /** Decoding the encoding of a tree gives a node for that tree. */
  lemma {:induction false} DecodeRepresents(t: T.Tree, hash: Option<Blob>, top: bool)
    requires T.Canon(t) && FlagOk(Flags(hash, false), t, top)
    requires hash.Some? || (!top && Size(T.Enc(t)) < HASH_LEN)
    ensures Decode(T.Enc(t), hash).Done?
    ensures Represents(Decode(T.Enc(t), hash).value, t, top)
    ensures AllHashed(Decode(T.Enc(t), hash).value, t, top)
    decreases t, 0
  {
    if t.Ext? {
      if !t.sub.Val? {
        DecodeRefRepresents(t.sub);
      }
      DecodeExt(t, hash);
    } else {
      DecodeRefRepresents(t.c0);
      DecodeRefRepresents(t.c1);
      DecodeBranch(t, hash);
    }
  }

  lemma DecodeExt(t: T.Tree, hash: Option<Blob>)
    requires T.Canon(t) && t.Ext? && (t.sub.Val? || DecodeRef(T.Ref(t.sub)).Done?)
    ensures var c := if t.sub.Val? then Value(t.sub.v) else DecodeRef(T.Ref(t.sub)).value;
            Decode(T.Enc(t), hash) == Done(Short(t.key, c, Flags(hash, false)))
  {
    T.CanonPath(t.key, t.sub);
    CompactRoundTrip(t.key);
    T.RefOfValue(if t.sub.Val? then t.sub else T.Nil);
    assert Decode(T.Enc(t), hash) == DecodeShort(T.Enc(t).items, hash);
  }

  lemma DecodeBranch(t: T.Tree, hash: Option<Blob>)
    requires T.Canon(t) && t.Branch? && DecodeRef(T.Ref(t.c0)).Done? && DecodeRef(T.Ref(t.c1)).Done?
    ensures var v := if t.c2.Val? then Value(t.c2.v) else Nil;
            Decode(T.Enc(t), hash) == Done(Full(DecodeRef(T.Ref(t.c0)).value, DecodeRef(T.Ref(t.c1)).value, v,
                Flags(hash, false)))
  {
    T.RefOfValue(t.c2);
    assert Decode(T.Enc(t), hash) == DecodeFull(T.Enc(t).items, hash);
  }

  lemma {:induction false} DecodeRefRepresents(t: T.Tree)
    requires T.Root(t)
    ensures DecodeRef(T.Ref(t)).Done?
    ensures Represents(DecodeRef(T.Ref(t)).value, t, false)
    ensures AllHashed(DecodeRef(T.Ref(t)).value, t, false)
    decreases t, 1
  {
    if !t.Nil? {
      T.RefOfCanon(t);
      if Size(T.Enc(t)) < HASH_LEN {
        DecodeRepresents(t, None, false);
      }
    }
  }

  /** Nodes decoded from a complete store stay readable. */
  lemma {:induction false} DecodeBacked(db: Store, t: T.Tree, hash: Option<Blob>)
    requires T.Canon(t) && Stored(db, t) && Decode(T.Enc(t), hash).Done?
    requires hash.Some? ==> Readable(db, t)
    ensures Backed(db, Decode(T.Enc(t), hash).value, t)
    decreases t, 0
  {
    var items := T.Enc(t).items;
    match t
    case Ext(k, s) =>
      T.CanonPath(k, s);
      CompactRoundTrip(k);
      if s.Val? {
        assert items[1] == Str(s.v);
      } else {
        DecodeRefBacked(db, s);
      }
    case Branch(a, b, c) =>
      DecodeRefBacked(db, a);
      DecodeRefBacked(db, b);
      assert items[2] == T.Enc(c);
  }

  lemma {:induction false} DecodeRefBacked(db: Store, t: T.Tree)
    requires T.Root(t) && Stored(db, t) && DecodeRef(T.Ref(t)).Done?
    ensures Backed(db, DecodeRef(T.Ref(t)).value, t)
    decreases t, 1
  {
    if !t.Nil? {
      T.RefOfCanon(t);
      if Size(T.Enc(t)) < HASH_LEN {
        DecodeBacked(db, t, None);
      }
    }
  }

  /** Loading a hash node: either it cannot be read, or the loaded node stands for the same tree. */
  lemma ResolveRepresents(db: Store, h: Blob, t: T.Tree, top: bool)
    requires StoreOk(db) && Represents(Hash(h), t, top)
    ensures Resolve(db, h).Done? || (Resolve(db, h).Missing? && !Backed(db, Hash(h), t))
    ensures Resolve(db, h).Done? ==>
              && Represents(Resolve(db, h).value, t, top)
              && AllHashed(Resolve(db, h).value, t, top)
              && (Backed(db, Hash(h), t) ==> Backed(db, Resolve(db, h).value, t))
  {
    if h in db {
      assert db[h] == T.Enc(t);
      DecodeRepresents(t, Some(h), top);
      if Backed(db, Hash(h), t) {
        DecodeBacked(db, t, Some(h));
      }
    }
  }
}
