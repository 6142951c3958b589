/**
  What a block comes to for one account and for one destination shard, in plain arithmetic: which
  transactions are carried out is said by balances alone, and the balance in the end is the first
  one plus what came in minus what went out.
 */
module Settlement {
  import opened Uints
  import opened Journal
  import opened Chunks
  import opened Execution
  import opened Blocks

  // ----- one transaction

  /** The sender is of this shard and has the value. */
  predicate Covered(m: Accounts, shard: nat, tx: Tx) {
    tx.fromShard == shard && tx.value <= Balance(m, tx.fromAddr)
  }

  /** A covered transaction takes its value from the sender and, inside the shard, gives it to the receiver. */
  lemma TransferExact(m: Accounts, shard: nat, tx: Tx, a: Address)
    requires Bounded(m) && tx.value < TWO_64
    ensures var b, b', inside := Balance(m, a), Balance(Transfer(m, shard, tx), a), tx.toShard == shard;
            if !Covered(m, shard, tx) then b' == b
            else if a == tx.fromAddr then b' == if inside && a == tx.toAddr then b else b - tx.value
            else if inside && a == tx.toAddr then b' == (b + tx.value) % TWO_64
            else b' == b
    ensures Transfer(m, shard, tx).Keys == m.Keys + if !Covered(m, shard, tx) then {}
        else if tx.toShard == shard then {tx.fromAddr, tx.toAddr} else {tx.fromAddr}
  {
    if Covered(m, shard, tx) {
      SubtractedTotal(m, tx.fromAddr, tx.value);
    }
  }

  /** A transaction from elsewhere to this shard gives its value to the receiver; no other does anything. */
  lemma CreditExact(m: Accounts, shard: nat, tx: Tx, a: Address)
    ensures var comes := tx.fromShard != shard && tx.toShard == shard;
            && Credit(m, shard, tx).Keys == m.Keys + (if comes then {tx.toAddr} else {})
            && (Bounded(m) ==>
                Balance(Credit(m, shard, tx), a) ==
                (Balance(m, a) + if comes && tx.toAddr == a then tx.value else 0) % TWO_64)
  {
  }

  // ----- one account

  /** Transaction j of a block is carried out: its sender has the value when its turn comes. */
  predicate Happens(m: Accounts, shard: nat, chunks: seq<Chunk>, txs: seq<Tx>, j: nat)
    requires Values(txs) && j < |txs|
  {
    Covered(Executed(m, shard, chunks, txs[..j]), shard, txs[j])
  }

  /** Value that transactions bring to an account of the shard from elsewhere. */
  function Came(shard: nat, txs: seq<Tx>, a: Address): nat {
    if |txs| == 0 then 0
    else
      var tx := txs[|txs| - 1];
      Came(shard, txs[..|txs| - 1], a)
          + if tx.fromShard != shard && tx.toShard == shard && tx.toAddr == a then tx.value else 0
  }

  function CameIn(shard: nat, chunks: seq<Chunk>, a: Address): nat {
    if |chunks| == 0 then 0 else CameIn(shard, chunks[..|chunks| - 1], a) + Came(shard, chunks[|chunks| - 1].txs, a)
  }

  /** Value that the block's own transactions take from an account. */
  function Debited(m: Accounts, shard: nat, chunks: seq<Chunk>, txs: seq<Tx>, a: Address): nat
    requires Values(txs)
    decreases |txs|
  {
    if |txs| == 0 then 0
    else
      var k := |txs| - 1;
      Debited(m, shard, chunks, txs[..k], a)
          + if Happens(m, shard, chunks, txs, k) && txs[k].fromAddr == a then txs[k].value else 0
  }

  /** Value that they give to an account of the shard. */
  function Received(m: Accounts, shard: nat, chunks: seq<Chunk>, txs: seq<Tx>, a: Address): nat
    requires Values(txs)
    decreases |txs|
  {
    if |txs| == 0 then 0
    else
      var k := |txs| - 1;
      Received(m, shard, chunks, txs[..k], a)
          + if Happens(m, shard, chunks, txs, k) && txs[k].toShard == shard && txs[k].toAddr == a
            then txs[k].value else 0
  }

  lemma ModAdd(x: int, v: int)
    ensures (x % TWO_64 + v) % TWO_64 == (x + v) % TWO_64
  {
    var q, r := x / TWO_64, x % TWO_64;
    assert x + v == (r + v) + q * TWO_64;
    ModMore(r + v, q);
  }

  lemma {:induction false} ModMore(x: int, q: int)
    ensures (x + q * TWO_64) % TWO_64 == x % TWO_64
    decreases if q < 0 then -q else q
  {
    if q > 0 {
      ModMore(x, q - 1);
      assert x + q * TWO_64 == (x + (q - 1) * TWO_64) + TWO_64;
    } else if q < 0 {
      ModMore(x, q + 1);
      assert x + (q + 1) * TWO_64 == (x + q * TWO_64) + TWO_64;
    }
  }

  lemma {:induction false} CreditsExact(m: Accounts, shard: nat, txs: seq<Tx>, a: Address)
    requires Bounded(m)
    ensures Balance(Credits(m, shard, txs), a) == (Balance(m, a) + Came(shard, txs, a)) % TWO_64
  {
    if |txs| > 0 {
      var f, tx := txs[..|txs| - 1], txs[|txs| - 1];
      CreditsExact(m, shard, f, a);
      CreditsBounded(m, shard, f);
      CreditExact(Credits(m, shard, f), shard, tx, a);
      ModAdd(Balance(m, a) + Came(shard, f, a), Came(shard, txs, a) - Came(shard, f, a));
    }
  }

  lemma {:induction false} InboundExact(m: Accounts, shard: nat, chunks: seq<Chunk>, a: Address)
    requires Bounded(m)
    ensures Balance(Inbound(m, shard, chunks), a) == (Balance(m, a) + CameIn(shard, chunks, a)) % TWO_64
  {
    if |chunks| > 0 {
      var f, txs := chunks[..|chunks| - 1], chunks[|chunks| - 1].txs;
      InboundExact(m, shard, f, a);
      InboundBounded(m, shard, f);
      CreditsExact(Inbound(m, shard, f), shard, txs, a);
      ModAdd(Balance(m, a) + CameIn(shard, f, a), Came(shard, txs, a));
    }
  }

  /** What the last transaction adds to an account, as an integer. */
  function Change(m: Accounts, shard: nat, tx: Tx, a: Address): int {
    if !Covered(m, shard, tx) then 0
    else (if tx.toShard == shard && tx.toAddr == a then tx.value else 0) - if tx.fromAddr == a then tx.value else 0
  }

  lemma TransferChange(m: Accounts, shard: nat, tx: Tx, a: Address)
    requires Bounded(m) && tx.value < TWO_64
    ensures Balance(Transfer(m, shard, tx), a) == (Balance(m, a) + Change(m, shard, tx, a)) % TWO_64
  {
    TransferExact(m, shard, tx, a);
    TransfersBounded(m, shard, [tx]);
  }

  lemma ExecutedSnoc(m: Accounts, shard: nat, chunks: seq<Chunk>, txs: seq<Tx>)
    requires Values(txs) && |txs| > 0
    ensures Executed(m, shard, chunks, txs) ==
            Transfer(Executed(m, shard, chunks, txs[..|txs| - 1]), shard, txs[|txs| - 1])
  {
  }

  lemma ExecutedBounded(m: Accounts, shard: nat, chunks: seq<Chunk>, txs: seq<Tx>)
    requires Bounded(m) && Values(txs)
    ensures Bounded(Executed(m, shard, chunks, txs))
  {
    InboundBounded(m, shard, chunks);
    TransfersBounded(Inbound(m, shard, chunks), shard, txs);
  }

  /** After a block an account has what it had, plus what came in, plus what it was given, minus what was taken. */
  lemma {:induction false} ExecutedExact(m: Accounts, shard: nat, chunks: seq<Chunk>, txs: seq<Tx>, a: Address)
    requires Bounded(m) && Values(txs)
    ensures Balance(Executed(m, shard, chunks, txs), a) ==
            (Balance(m, a) + CameIn(shard, chunks, a) + Received(m, shard, chunks, txs, a)
                - Debited(m, shard, chunks, txs, a)) % TWO_64
    decreases |txs|
  {
    if |txs| == 0 {
      InboundExact(m, shard, chunks, a);
    } else {
      var f, tx := txs[..|txs| - 1], txs[|txs| - 1];
      var before := Executed(m, shard, chunks, f);
      ExecutedExact(m, shard, chunks, f, a);
      ExecutedBounded(m, shard, chunks, f);
      ExecutedSnoc(m, shard, chunks, txs);
      TransferChange(before, shard, tx, a);
      ModAdd(Balance(m, a) + CameIn(shard, chunks, a) + Received(m, shard, chunks, f, a)
                 - Debited(m, shard, chunks, f, a), Change(before, shard, tx, a));
    }
  }

  /** No credit wraps around: then the sum holds as it stands. */
  lemma {:induction false} CreditsPlain(m: Accounts, shard: nat, txs: seq<Tx>, a: Address)
    requires CreditsLost(m, shard, txs) == 0
    ensures Balance(Credits(m, shard, txs), a) == Balance(m, a) + Came(shard, txs, a)
  {
    if |txs| > 0 {
      CreditsPlain(m, shard, txs[..|txs| - 1], a);
    }
  }

  lemma {:induction false} InboundPlain(m: Accounts, shard: nat, chunks: seq<Chunk>, a: Address)
    requires InboundLost(m, shard, chunks) == 0
    ensures Balance(Inbound(m, shard, chunks), a) == Balance(m, a) + CameIn(shard, chunks, a)
  {
    if |chunks| > 0 {
      InboundPlain(m, shard, chunks[..|chunks| - 1], a);
      CreditsPlain(Inbound(m, shard, chunks[..|chunks| - 1]), shard, chunks[|chunks| - 1].txs, a);
    }
  }

  lemma TransferPlain(m: Accounts, shard: nat, tx: Tx, a: Address)
    requires Bounded(m) && tx.value < TWO_64 && TransferLost(m, shard, tx) == 0
    ensures Balance(Transfer(m, shard, tx), a) == Balance(m, a) + Change(m, shard, tx, a)
  {
    TransferExact(m, shard, tx, a);
  }

  lemma LostSnoc(m: Accounts, shard: nat, chunks: seq<Chunk>, txs: seq<Tx>)
    requires Values(txs) && |txs| > 0 && Lost(m, shard, chunks, txs) == 0
    ensures var f := txs[..|txs| - 1];
            && Lost(m, shard, chunks, f) == 0
            && TransferLost(Executed(m, shard, chunks, f), shard, txs[|txs| - 1]) == 0
  {
  }

  lemma {:induction false} ExecutedPlain(m: Accounts, shard: nat, chunks: seq<Chunk>, txs: seq<Tx>, a: Address)
    requires Bounded(m) && Values(txs) && Lost(m, shard, chunks, txs) == 0
    ensures Balance(Executed(m, shard, chunks, txs), a) + Debited(m, shard, chunks, txs, a) ==
            Balance(m, a) + CameIn(shard, chunks, a) + Received(m, shard, chunks, txs, a)
    decreases |txs|
  {
    if |txs| == 0 {
      InboundPlain(m, shard, chunks, a);
    } else {
      var f, tx := txs[..|txs| - 1], txs[|txs| - 1];
      LostSnoc(m, shard, chunks, txs);
      ExecutedPlain(m, shard, chunks, f, a);
      ExecutedBounded(m, shard, chunks, f);
      ExecutedSnoc(m, shard, chunks, txs);
      TransferPlain(Executed(m, shard, chunks, f), shard, tx, a);
    }
  }

  /** Every account ends with its first balance and what came in and was given, less what was taken. */
  ghost predicate Settles(m: Accounts, after: Accounts, shard: nat, chunks: seq<Chunk>, txs: seq<Tx>)
    requires Values(txs)
  {
    forall a ::
      Balance(after, a) == (Balance(m, a) + CameIn(shard, chunks, a) + Received(m, shard, chunks, txs, a)
                                - Debited(m, shard, chunks, txs, a)) % TWO_64
  }

  lemma ExecutedSettles(m: Accounts, shard: nat, chunks: seq<Chunk>, txs: seq<Tx>)
    requires Bounded(m) && Values(txs)
    ensures Settles(m, Executed(m, shard, chunks, txs), shard, chunks, txs)
  {
    forall a
      ensures Balance(Executed(m, shard, chunks, txs), a) ==
              (Balance(m, a) + CameIn(shard, chunks, a) + Received(m, shard, chunks, txs, a)
                  - Debited(m, shard, chunks, txs, a)) % TWO_64
    {
      ExecutedExact(m, shard, chunks, txs, a);
    }
  }

  // ----- which accounts exist

  ghost predicate CameTo(shard: nat, txs: seq<Tx>, a: Address) {
    exists i :: 0 <= i < |txs| && txs[i].fromShard != shard && txs[i].toShard == shard && txs[i].toAddr == a
  }

  /** Transaction j is carried out and has the account on one of its sides here. */
  predicate Concerns(m: Accounts, shard: nat, chunks: seq<Chunk>, txs: seq<Tx>, j: nat, a: Address)
    requires Values(txs) && j < |txs|
  {
    Happens(m, shard, chunks, txs, j) && (txs[j].fromAddr == a || (txs[j].toShard == shard && txs[j].toAddr == a))
  }

  lemma {:induction false} CreditsExist(m: Accounts, shard: nat, txs: seq<Tx>, a: Address)
    ensures a in Credits(m, shard, txs) <==> a in m || CameTo(shard, txs, a)
  {
    if |txs| > 0 {
      var f := txs[..|txs| - 1];
      CreditsExist(m, shard, f, a);
      assert CameTo(shard, f, a) ==> CameTo(shard, txs, a) by {
        if CameTo(shard, f, a) {
          var i :| 0 <= i < |f| && f[i].fromShard != shard && f[i].toShard == shard && f[i].toAddr == a;
          assert txs[i] == f[i];
        }
      }
    }
  }

  lemma {:induction false} InboundExist(m: Accounts, shard: nat, chunks: seq<Chunk>, a: Address)
    ensures a in Inbound(m, shard, chunks)
       <==> a in m || exists i :: 0 <= i < |chunks| && CameTo(shard, chunks[i].txs, a)
  {
    if |chunks| > 0 {
      var f := chunks[..|chunks| - 1];
      InboundExist(m, shard, f, a);
      CreditsExist(Inbound(m, shard, f), shard, chunks[|chunks| - 1].txs, a);
    }
  }

  /** An account exists after a block exactly if it did before or was met. */
  lemma {:induction false} ExecutedExist(m: Accounts, shard: nat, chunks: seq<Chunk>, txs: seq<Tx>, a: Address)
    requires Bounded(m) && Values(txs)
    ensures a in Executed(m, shard, chunks, txs)
       <==> || a in m
            || (exists i :: 0 <= i < |chunks| && CameTo(shard, chunks[i].txs, a))
            || (exists j :: 0 <= j < |txs| && Concerns(m, shard, chunks, txs, j, a))
    decreases |txs|
  {
    if |txs| == 0 {
      InboundExist(m, shard, chunks, a);
    } else {
      var k := |txs| - 1;
      var f := txs[..k];
      ExecutedExist(m, shard, chunks, f, a);
      ExecutedBounded(m, shard, chunks, f);
      ExecutedSnoc(m, shard, chunks, txs);
      TransferExact(Executed(m, shard, chunks, f), shard, txs[k], a);
      ConcernsFront(m, shard, chunks, txs, a);
    }
  }

  lemma ConcernsFront(m: Accounts, shard: nat, chunks: seq<Chunk>, txs: seq<Tx>, a: Address)
    requires Values(txs) && |txs| > 0
    ensures var f := txs[..|txs| - 1];
            (exists j :: 0 <= j < |txs| && Concerns(m, shard, chunks, txs, j, a)) <==>
            (exists j :: 0 <= j < |f| && Concerns(m, shard, chunks, f, j, a))
                || Concerns(m, shard, chunks, txs, |txs| - 1, a)
  {
    var f := txs[..|txs| - 1];
    forall j | 0 <= j < |f|
      ensures Concerns(m, shard, chunks, f, j, a) <==> Concerns(m, shard, chunks, txs, j, a)
    {
      assert f[..j] == txs[..j] && f[j] == txs[j];
    }
    if exists j :: 0 <= j < |txs| && Concerns(m, shard, chunks, txs, j, a) {
      var j :| 0 <= j < |txs| && Concerns(m, shard, chunks, txs, j, a);
      assert j < |f| ==> Concerns(m, shard, chunks, f, j, a);
    }
  }

  // ----- destinations

  /** Transaction j is carried out and goes to the i-th shard, another one. */
  predicate Pays(m: Accounts, shard: nat, chunks: seq<Chunk>, txs: seq<Tx>, j: nat, i: nat)
    requires Values(txs) && j < |txs|
  {
    Happens(m, shard, chunks, txs, j) && txs[j].toShard != shard && txs[j].toShard == FIRST_SHARD + i
  }

  lemma PaysFront(m: Accounts, shard: nat, chunks: seq<Chunk>, txs: seq<Tx>, i: nat)
    requires Values(txs) && |txs| > 0
    ensures var f := txs[..|txs| - 1];
            (exists j :: 0 <= j < |txs| && Pays(m, shard, chunks, txs, j, i)) <==>
            (exists j :: 0 <= j < |f| && Pays(m, shard, chunks, f, j, i)) || Pays(m, shard, chunks, txs, |txs| - 1, i)
  {
    var f := txs[..|txs| - 1];
    forall j | 0 <= j < |f|
      ensures Pays(m, shard, chunks, f, j, i) <==> Pays(m, shard, chunks, txs, j, i)
    {
      assert f[..j] == txs[..j] && f[j] == txs[j];
    }
    if exists j :: 0 <= j < |txs| && Pays(m, shard, chunks, txs, j, i) {
      var j :| 0 <= j < |txs| && Pays(m, shard, chunks, txs, j, i);
      assert j < |f| ==> Pays(m, shard, chunks, f, j, i);
    }
  }

  /** The shards marked in a header are those that some transaction carried out goes to. */
  lemma {:induction false} TargetsExact(m: Accounts, shard: nat, chunks: seq<Chunk>, txs: seq<Tx>, i: nat)
    requires Values(txs)
    ensures i in Targets(Inbound(m, shard, chunks), shard, txs)
       <==> exists j :: 0 <= j < |txs| && Pays(m, shard, chunks, txs, j, i)
    decreases |txs|
  {
    if |txs| > 0 {
      var k := |txs| - 1;
      TargetsExact(m, shard, chunks, txs[..k], i);
      PaysFront(m, shard, chunks, txs, i);
      assert Executed(m, shard, chunks, txs[..k]) == Transfers(Inbound(m, shard, chunks), shard, txs[..k]);
    }
  }

  /** The marks of a header. */
  ghost predicate Marks(dst: set<nat>, m: Accounts, shard: nat, chunks: seq<Chunk>, txs: seq<Tx>)
    requires Values(txs)
  {
    forall i: nat :: i in dst <==> exists j :: 0 <= j < |txs| && Pays(m, shard, chunks, txs, j, i)
  }

  lemma TargetsMark(m: Accounts, shard: nat, chunks: seq<Chunk>, txs: seq<Tx>)
    requires Values(txs)
    ensures Marks(Targets(Inbound(m, shard, chunks), shard, txs), m, shard, chunks, txs)
  {
    forall i: nat
      ensures i in Targets(Inbound(m, shard, chunks), shard, txs) <==>
              exists j :: 0 <= j < |txs| && Pays(m, shard, chunks, txs, j, i)
    {
      TargetsExact(m, shard, chunks, txs, i);
    }
  }

  // ----- the first block

  lemma ListedSnoc(accounts: seq<Address>, a: Address)
    requires |accounts| > 0
    ensures var f, b := accounts[..|accounts| - 1], accounts[|accounts| - 1];
            && multiset(accounts)[a] == multiset(f)[a] + (if a == b then 1 else 0)
            && (a in accounts <==> a in f || a == b)
  {
    assert accounts == accounts[..|accounts| - 1] + [accounts[|accounts| - 1]];
  }

  /** What a number of grants comes to. */
  function Grants(n: nat): nat {
    GRANT * n
  }

  /** Every listing of an account grants it the amount once. */
  lemma {:induction false} GrantedExact(m: Accounts, accounts: seq<Address>, a: Address)
    requires Bounded(m)
    ensures Balance(Granted(m, accounts), a) == (Balance(m, a) + Grants(multiset(accounts)[a])) % TWO_64
    ensures a in Granted(m, accounts) <==> a in m || a in accounts
  {
    if |accounts| > 0 {
      var f, b := accounts[..|accounts| - 1], accounts[|accounts| - 1];
      GrantedExact(m, f, a);
      GrantedBounded(m, f);
      ListedSnoc(accounts, a);
      ModAdd(Balance(m, a) + Grants(multiset(f)[a]), if a == b then GRANT else 0);
    }
  }

  lemma {:induction false} GrantedBounded(m: Accounts, accounts: seq<Address>)
    requires Bounded(m)
    ensures Bounded(Granted(m, accounts))
  {
    if |accounts| > 0 {
      GrantedBounded(m, accounts[..|accounts| - 1]);
    }
  }
}
