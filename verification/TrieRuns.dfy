/**
  Whole runs of updates and deletions against a finite map from byte keys to non-empty values.
 */
module TrieRuns {
  import opened Encoding
  import opened Rlp
  import opened Trees

  datatype Op = Update(key: seq<byte>, value: Blob) | Delete(key: seq<byte>)

  type Contents = map<seq<byte>, Blob>

  function Apply(t: Tree, op: Op): Tree {
    if op.Update? && Len(op.value) > 0 then Put(t, KeyToBinary(op.key), Val(op.value)) else Cut(t, KeyToBinary(op.key))
  }

  function Run(ops: seq<Op>): Tree {
    if |ops| == 0 then Nil else Apply(Run(ops[..|ops| - 1]), ops[|ops| - 1])
  }

  /** Updating with an empty value is a deletion. */
  function ApplyMap(m: Contents, op: Op): Contents {
    if op.Update? && Len(op.value) > 0 then m[op.key := op.value] else m - {op.key}
  }

  function RunMap(ops: seq<Op>): Contents {
    if |ops| == 0 then map[] else ApplyMap(RunMap(ops[..|ops| - 1]), ops[|ops| - 1])
  }

  /** The map read at a bit key; keys that are not whole bytes hold nothing. */
  function At(m: Contents, q: seq<byte>): Option<Blob>
    requires TermKey(q)
  {
    var k := BinaryToKey(q);
    if k.Some? && k.value in m then Some(m[k.value]) else None
  }

  ghost predicate Holds(t: Tree, m: Contents) {
    Root(t) && forall q :: TermKey(q) ==> Get(t, q) == At(m, q)
  }

  lemma BinaryToKeyInverse(q: seq<byte>, key: seq<byte>)
    requires TermKey(q)
    ensures BinaryToKey(q) == Some(key) <==> q == KeyToBinary(key)
  {
    if BinaryToKey(q) == Some(key) {
      UnpackAllPackAll(Body(q));
      assert q == Body(q) + [2];
    } else if q == KeyToBinary(key) {
      KeyRoundTrip(key);
    }
  }

  lemma AtApply(m: Contents, op: Op, q: seq<byte>)
    requires TermKey(q)
    ensures At(ApplyMap(m, op), q) ==
            if q != KeyToBinary(op.key) then At(m, q)
            else if op.Update? && Len(op.value) > 0 then Some(op.value) else None
  {
    BinaryToKeyInverse(q, op.key);
  }

  lemma GetApply(t: Tree, op: Op, q: seq<byte>)
    requires Root(t) && TermKey(q)
    ensures Root(Apply(t, op))
    ensures Get(Apply(t, op), q) ==
            if q != KeyToBinary(op.key) then Get(t, q)
            else if op.Update? && Len(op.value) > 0 then Some(op.value) else None
  {
    var k := KeyToBinary(op.key);
    if op.Update? && Len(op.value) > 0 {
      PutCanon(t, k, Val(op.value));
      PutGet(t, k, Val(op.value), q);
    } else {
      CutCanon(t, k);
      CutGet(t, k, q);
    }
  }

  lemma ApplyHolds(t: Tree, m: Contents, op: Op)
    requires Holds(t, m)
    ensures Holds(Apply(t, op), ApplyMap(m, op))
  {
    GetApply(t, op, KeyToBinary(op.key));
    forall q | TermKey(q)
      ensures Get(Apply(t, op), q) == At(ApplyMap(m, op), q)
    {
      GetApply(t, op, q);
      AtApply(m, op, q);
    }
  }

  /** After any run the trie is canonical and reads as the map built by the same run. */
  lemma {:induction false} RunHolds(ops: seq<Op>)
    ensures Holds(Run(ops), RunMap(ops))
  {
    if |ops| != 0 {
      RunHolds(ops[..|ops| - 1]);
      ApplyHolds(Run(ops[..|ops| - 1]), RunMap(ops[..|ops| - 1]), ops[|ops| - 1]);
    }
  }

  lemma RunGet(ops: seq<Op>, key: seq<byte>)
    ensures Get(Run(ops), KeyToBinary(key)) == if key in RunMap(ops) then Some(RunMap(ops)[key]) else None
  {
    RunHolds(ops);
    KeyRoundTrip(key);
  }

  lemma HoldsSame(a: Tree, m: Contents, b: Tree, n: Contents)
    requires Holds(a, m) && Holds(b, n)
    ensures m == n <==> SameMap(a, b)
  {
    if m == n {
      forall q | TermKey(q)
        ensures Get(a, q) == Get(b, q)
      {
      }
    } else {
      var key :| key in m.Keys + n.Keys && (key !in m || key !in n || m[key] != n[key]);
      var q := KeyToBinary(key);
      KeyRoundTrip(key);
      assert Get(a, q) == At(m, q) && Get(b, q) == At(n, q);
    }
  }

  /** History does not matter: same final map, same tree and root; different maps, different roots. */
  lemma RunsAgree(ops1: seq<Op>, ops2: seq<Op>)
    ensures RunMap(ops1) == RunMap(ops2) ==> Run(ops1) == Run(ops2)
    ensures RunMap(ops1) == RunMap(ops2) <==> RootHash(Run(ops1)) == RootHash(Run(ops2))
  {
    RunHolds(ops1);
    RunHolds(ops2);
    HoldsSame(Run(ops1), RunMap(ops1), Run(ops2), RunMap(ops2));
    RootHashCommits(Run(ops1), Run(ops2));
    if RunMap(ops1) == RunMap(ops2) {
      Unique(Run(ops1), Run(ops2));
    }
  }
}
