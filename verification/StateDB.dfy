/**
  The account state: a journaled cache of account objects over the account trie.
 */
module StateDB {
  import opened Encoding
  import opened Rlp
  import opened Uints
  import opened Seal
  import opened Journal
  import opened TrieObject
  import N = Nodes
  import NodeCache
  import T = Trees
  import R = TrieRuns
  import C = Committer

  /** Account contents of the trie. */
  function Encoded(stored: Accounts): R.Contents {
    map a | a in stored :: Raw(if stored[a] < TWO_64 then AccountBytes(stored[a]) else [])
  }

  /** The invariant of the cache, quantified so that only proofs that mention Opens look inside. */
  ghost predicate Kept(c: Cache, stored: Accounts, hist: seq<Ledger>) {
    forall key :: Opens(key) ==> Inv(c, stored, hist)
  }

  /** The trie holds exactly the given accounts. */
  ghost predicate Keeps(t: T.Tree, stored: Accounts) {
    R.Holds(t, Encoded(stored)) && Bounded(stored)
  }

  lemma ReadAccount(t: T.Tree, stored: Accounts, a: Address)
    requires Keeps(t, stored)
    ensures T.Get(t, KeyToBinary(a)) == if a in stored then Some(Raw(AccountBytes(stored[a]))) else None
  {
    KeyRoundTrip(a);
  }

  lemma EncodedSet(stored: Accounts, a: Address, v: nat)
    requires v < TWO_64
    ensures Encoded(stored)[a := Raw(AccountBytes(v))] == Encoded(stored[a := v])
  {
  }

  lemma WriteAccount(t: T.Tree, stored: Accounts, a: Address, v: nat)
    requires Keeps(t, stored) && v < TWO_64
    ensures Keeps(T.Put(t, KeyToBinary(a), T.Val(Raw(AccountBytes(v)))), stored[a := v])
  {
    var op := R.Update(a, Raw(AccountBytes(v)));
    R.ApplyHolds(t, Encoded(stored), op);
    EncodedSet(stored, a, v);
  }

  lemma EraseAccount(t: T.Tree, stored: Accounts, a: Address)
    requires Keeps(t, stored)
    ensures Keeps(T.Cut(t, KeyToBinary(a)), stored - {a})
  {
    R.ApplyHolds(t, Encoded(stored), R.Delete(a));
    EncodedErase(stored, a);
  }

  lemma EncodedErase(stored: Accounts, a: Address)
    ensures Encoded(stored) - {a} == Encoded(stored - {a})
  {
  }

  lemma {:induction false} EncodedInjective(s: Accounts, s': Accounts)
    requires Bounded(s) && Bounded(s')
    ensures Encoded(s) == Encoded(s') <==> s == s'
  {
    if Encoded(s) == Encoded(s') {
      assert Encoded(s).Keys == s.Keys && Encoded(s').Keys == s'.Keys;
      forall a | a in s
        ensures s[a] == s'[a]
      {
        assert Encoded(s)[a] == Encoded(s')[a];
        AccountRoundTrip(s[a]);
        AccountRoundTrip(s'[a]);
      }
    }
  }

  /** The state root commits to the accounts: equal roots, equal accounts, and the other way round. */
  lemma StateRootCommits(t: T.Tree, s: Accounts, t': T.Tree, s': Accounts)
    requires Keeps(t, s) && Keeps(t', s')
    ensures T.RootHash(t) == T.RootHash(t') <==> s == s'
    ensures s == s' ==> t == t'
  {
    R.HoldsSame(t, Encoded(s), t', Encoded(s'));
    T.RootHashCommits(t, t');
    EncodedInjective(s, s');
    if s == s' {
      T.Unique(t, t');
    }
  }

  // ----- the changes, with the invariant closed

  lemma KeptFacts(c: Cache, stored: Accounts, hist: seq<Ledger>, a: Address)
    requires Kept(c, stored, hist)
    ensures |hist| == |c.entries| + 1 && Bounded(hist[|c.entries|].accounts)
    ensures AgreesAt(c.objects, stored, hist[|c.entries|], a)
  {
    assert Opens(0);
  }

  /** What the trie misses is empty. */
  lemma KeptMissed(c: Cache, stored: Accounts, hist: seq<Ledger>, a: Address)
    requires Kept(c, stored, hist) && |hist| == |c.entries| + 1 && a in Missed(c, stored, hist[|c.entries|])
    ensures hist[|c.entries|].accounts[a] == 0
  {
    assert Opens(0);
    DiffersOrDue(c, stored, hist, a);
  }

  lemma KeptBounds(c: Cache, stored: Accounts, hist: seq<Ledger>)
    requires Kept(c, stored, hist)
    ensures forall a :: a in c.objects && !c.objects[a].deleted ==> c.objects[a].balance < TWO_64
  {
    assert Opens(0);
    forall a | a in c.objects && !c.objects[a].deleted
      ensures c.objects[a].balance < TWO_64
    {
      assert AgreesAt(c.objects, stored, hist[|c.entries|], a);
    }
  }

  /** An empty cache over a trie stands for the accounts of the trie. */
  lemma ReopenKept(c: Cache, stored: Accounts, hist: seq<Ledger>, s: Accounts)
    requires Kept(c, stored, hist) && Bounded(s)
    ensures Kept(Cache(map[], {}, [], if |c.entries| > 0 then map[] else c.dirties), s, [Ledger(s, {})])
  {
    assert Opens(0);
  }

  lemma LoadKept(c: Cache, stored: Accounts, hist: seq<Ledger>, a: Address)
    requires Kept(c, stored, hist) && a !in c.objects && a in stored
    ensures Kept(c.(objects := c.objects[a := Obj(stored[a], false, false)]), stored, hist)
  {
    assert Opens(0);
    LoadInv(c, stored, hist, a);
  }

  lemma BalanceKept(c: Cache, stored: Accounts, hist: seq<Ledger>, a: Address, v: nat)
    requires Kept(c, stored, hist) && a in c.objects && !c.objects[a].deleted && v < TWO_64 && |hist| == |c.entries| + 1
    ensures var o := c.objects[a].(balance := v);
            Kept(Changed(c, BalanceChange(a, c.objects[a].balance), o), stored,
                hist + [Replaced(hist[|c.entries|], a, o)])
    ensures Replaced(hist[|c.entries|], a, c.objects[a].(balance := v)).doomed == hist[|c.entries|].doomed
    ensures MissedAfter(c, stored, hist, BalanceChange(a, c.objects[a].balance), c.objects[a].(balance := v))
  {
    assert Opens(0);
    ChangedMissed(c, stored, hist, BalanceChange(a, c.objects[a].balance), c.objects[a].(balance := v));
    BalanceInv(c, stored, hist, a, v);
    assert AgreesAt(c.objects, stored, hist[|c.entries|], a);
  }

  /** What the trie misses after a change of one object. */
  ghost predicate MissedAfter(c: Cache, stored: Accounts, hist: seq<Ledger>, e: Change, o: Obj)
    requires |hist| == |c.entries| + 1
  {
    var l := hist[|c.entries|];
    Missed(Changed(c, e, o), stored, Replaced(l, e.account, o)) ==
    if !e.ResetObject? then Missed(c, stored, l) - {e.account}
    else if Vanished(c, e.account) then Missed(c, stored, l) + {e.account}
    else Missed(c, stored, l)
  }

  lemma SuicideKept(c: Cache, stored: Accounts, hist: seq<Ledger>, a: Address)
    requires Kept(c, stored, hist) && a in c.objects && !c.objects[a].deleted && |hist| == |c.entries| + 1
    ensures var o := Obj(0, true, false);
            Kept(Changed(c, SuicideChange(a, c.objects[a].suicided, c.objects[a].balance), o), stored,
                hist + [Replaced(hist[|c.entries|], a, o)])
    ensures MissedAfter(c, stored, hist, SuicideChange(a, c.objects[a].suicided, c.objects[a].balance),
        Obj(0, true, false))
  {
    assert Opens(0);
    ChangedMissed(c, stored, hist, SuicideChange(a, c.objects[a].suicided, c.objects[a].balance), Obj(0, true, false));
    SuicideInv(c, stored, hist, a);
  }

  lemma CreateKept(c: Cache, stored: Accounts, hist: seq<Ledger>, a: Address)
    requires Kept(c, stored, hist) && a !in c.objects && a !in stored && |hist| == |c.entries| + 1
    ensures var o := Obj(0, false, false);
            Kept(Changed(c, CreateObject(a), o), stored, hist + [Replaced(hist[|c.entries|], a, o)])
    ensures Replaced(hist[|c.entries|], a, Obj(0, false, false)).doomed == hist[|c.entries|].doomed
    ensures MissedAfter(c, stored, hist, CreateObject(a), Obj(0, false, false))
        && a !in Missed(c, stored, hist[|c.entries|])
  {
    assert Opens(0);
    ChangedMissed(c, stored, hist, CreateObject(a), Obj(0, false, false));
    CreateInv(c, stored, hist, a);
    assert AgreesAt(c.objects, stored, hist[|c.entries|], a);
  }

  lemma ResetKept(c: Cache, stored: Accounts, hist: seq<Ledger>, a: Address)
    requires Kept(c, stored, hist) && a in c.objects && |hist| == |c.entries| + 1
    ensures var o := Renewed(c.objects[a]);
            Kept(Changed(c, ResetObject(a, c.objects[a]), o), stored, hist + [Replaced(hist[|c.entries|], a, o)])
    ensures c.objects[a].deleted ==>
        Replaced(hist[|c.entries|], a, Renewed(c.objects[a])).doomed == hist[|c.entries|].doomed
    ensures MissedAfter(c, stored, hist, ResetObject(a, c.objects[a]), Renewed(c.objects[a]))
  {
    assert Opens(0);
    ChangedMissed(c, stored, hist, ResetObject(a, c.objects[a]), Renewed(c.objects[a]));
    ResetInv(c, stored, hist, a);
    assert AgreesAt(c.objects, stored, hist[|c.entries|], a);
  }

  lemma TouchKept(c: Cache, stored: Accounts, hist: seq<Ledger>, a: Address)
    requires Kept(c, stored, hist) && a in c.objects && !c.objects[a].deleted && |hist| == |c.entries| + 1
    ensures Kept(Cache(c.objects, c.pending, c.entries + [TouchChange(a)], Touched(c.dirties, a)), stored,
        hist + [hist[|c.entries|]])
    ensures Missed(Cache(c.objects, c.pending, c.entries + [TouchChange(a)], Touched(c.dirties, a)), stored,
        hist[|c.entries|]) ==
            Missed(c, stored, hist[|c.entries|]) - {a}
  {
    assert Opens(0);
    TouchedMissed(c, stored, hist[|c.entries|], a);
    TouchInv(c, stored, hist, a);
  }

  lemma RevertKept(c: Cache, stored: Accounts, hist: seq<Ledger>)
    requires Kept(c, stored, hist) && |c.entries| > 0 && |hist| == |c.entries| + 1
    ensures Kept(Reverted(c), stored, hist[..|c.entries|])
    ensures forall a :: a != RIPEMD ==> DirtyCount(Reverted(c).dirties, a) == Count(Reverted(c).entries, a)
  {
    assert Opens(0);
    RevertInv(c, stored, hist);
  }

  lemma FinaliseKept(c: Cache, stored: Accounts, hist: seq<Ledger>, deleteEmpty: bool)
    requires Kept(c, stored, hist) && |hist| == |c.entries| + 1
    ensures var l := hist[|c.entries|];
            Kept(Finalised(c, deleteEmpty), stored, [FinalLedger(c, l, deleteEmpty)])
    ensures var c' := Finalised(c, deleteEmpty); c'.dirties.Keys * c'.objects.Keys <= c'.pending <= c'.objects.Keys
    ensures Missed(Finalised(c, deleteEmpty), stored, FinalLedger(c, hist[|c.entries|], deleteEmpty)) ==
            Missed(c, stored, hist[|c.entries|])
  {
    assert Opens(0);
    FinalMissed(c, stored, hist, deleteEmpty);
    FinaliseInv(c, stored, hist, deleteEmpty);
  }

  lemma FlushKept(c: Cache, stored: Accounts, l: Ledger, stored': Accounts)
    requires Kept(c, stored, [l]) && |c.entries| == 0
    requires Flushing(c.objects, stored, stored', c.pending) && FlushedValues(c.objects, stored, stored', c.pending)
    requires c.dirties.Keys * c.objects.Keys <= c.pending
    ensures Kept(c.(pending := {}), stored', [l])
    ensures forall a :: Balance(stored', a) == Balance(l.accounts, a)
    ensures Missed(c.(pending := {}), stored', l) == Missed(c, stored, l)
    ensures stored' == l.accounts - Missed(c, stored, l)
  {
    assert Opens(0);
    FlushInv(c, stored, l, stored');
  }

  lemma KeptCounts(c: Cache, stored: Accounts, hist: seq<Ledger>)
    requires Kept(c, stored, hist)
    ensures forall a :: a != RIPEMD ==> DirtyCount(c.dirties, a) == Count(c.entries, a)
    ensures forall a :: a != RIPEMD ==> (a in c.dirties <==> Count(c.entries, a) > 0)
  {
    assert Opens(0);
  }

  /** A marked account vanishes once the state has been finalised and written. */
  lemma DoomedVanishes(c: Cache, stored: Accounts, hist: seq<Ledger>, deleteEmpty: bool, a: Address)
    requires Kept(c, stored, hist) && |hist| == |c.entries| + 1 && a in hist[|c.entries|].doomed
    ensures Vanished(Finalised(c, deleteEmpty).(pending := {}), a)
    ensures a !in FinalLedger(c, hist[|c.entries|], deleteEmpty).accounts
  {
    assert Opens(0);
    assert AgreesAt(c.objects, stored, hist[|c.entries|], a);
    DoomedGoes(c, stored, hist, deleteEmpty, a);
    assert c.entries[..|c.entries|] == c.entries;
    assert Clean(hist[|c.entries|], stored, c.entries, c.pending);
    assert Count(c.entries, a) > 0;
  }

  /** Which accounts go: the marked ones, and, where empty ones are to go, dirty ones with an object. */
  ghost predicate FinalSteps(l: Ledger, l': Ledger, dirty: set<Address>, deleteEmpty: bool) {
    && l'.doomed == {}
    && forall a ::
         && (a in l'.accounts <==> && a in l.accounts && a !in l.doomed
                                   && !(deleteEmpty && a in dirty && l.accounts[a] == 0))
         && (a in l'.accounts ==> l'.accounts[a] == l.accounts[a])
  }

  lemma FinalExact(c: Cache, stored: Accounts, hist: seq<Ledger>, deleteEmpty: bool)
    requires Kept(c, stored, hist) && |hist| == |c.entries| + 1
    ensures var l := hist[|c.entries|];
            FinalSteps(l, FinalLedger(c, l, deleteEmpty), c.dirties.Keys * c.objects.Keys, deleteEmpty)
  {
    assert Opens(0);
    var l := hist[|c.entries|];
    assert c.entries[..|c.entries|] == c.entries;
    assert Clean(l, stored, c.entries, c.pending);
    forall a
      ensures a in FinalLedger(c, l, deleteEmpty).accounts <==>
              && a in l.accounts && a !in l.doomed
              && !(deleteEmpty && a in c.dirties.Keys * c.objects.Keys && l.accounts[a] == 0)
    {
      FinalExactAt(c, stored, hist, deleteEmpty, a);
    }
  }

  lemma FinalExactAt(c: Cache, stored: Accounts, hist: seq<Ledger>, deleteEmpty: bool, a: Address)
    requires Kept(c, stored, hist) && |hist| == |c.entries| + 1
    ensures var l := hist[|c.entries|];
            a in FinalLedger(c, l, deleteEmpty).accounts <==>
            && a in l.accounts && a !in l.doomed
            && !(deleteEmpty && a in c.dirties.Keys * c.objects.Keys && l.accounts[a] == 0)
  {
    assert Opens(0);
    var l := hist[|c.entries|];
    assert AgreesAt(c.objects, stored, l, a);
    if a in l.doomed {
      DoomedGoes(c, stored, hist, deleteEmpty, a);
    }
  }

  /** Finalising changes no balance except that marked accounts read zero. */
  lemma FinalBalance(c: Cache, stored: Accounts, hist: seq<Ledger>, deleteEmpty: bool, a: Address)
    requires Kept(c, stored, hist) && |hist| == |c.entries| + 1
    ensures var l := hist[|c.entries|];
            Balance(FinalLedger(c, l, deleteEmpty).accounts, a) == if a in l.doomed then 0 else Balance(l.accounts, a)
  {
    assert Opens(0);
    var l := hist[|c.entries|];
    assert AgreesAt(c.objects, stored, l, a);
    if a in l.doomed {
      DoomedGoes(c, stored, hist, deleteEmpty, a);
    }
  }

  /** The root is one for the account trie t, which holds m. */
  ghost predicate StandsFor(root: Blob, t: T.Tree, m: Accounts) {
    Names(root, t) && Keeps(t, m)
  }

  /** A trie of a closed store: where the root is known, everything below it is. */
  method OpenTrie(store: N.Store, root: Blob, ghost t: T.Tree) returns (r: N.Outcome<()>, tr: Trie)
    requires N.StoreOk(store) && NodeCache.Closed(store)
    ensures r == Opening(store, root) && (r.Missing? <==> !HasRoot(store, root))
    ensures fresh(tr) && tr.db == store
    ensures HasRoot(store, root) && Names(root, t) ==> r.Done? && tr.Complete() && tr.tree == t
  {
    if HasRoot(store, root) && Names(root, t) {
      NilRoot(t);
      if !t.Nil? {
        NodeCache.ClosedReadable(store, t);
      }
    }
    tr := new Trie(store);
    r := tr.Open(root, store, t);
  }

  class StateDB {
    var trie: Trie
    var objects: Objects
    var pending: set<Address>
    var entries: seq<Change>
    var dirties: map<Address, nat>
    ghost var stored: Accounts    // what the trie holds
    ghost var hist: seq<Ledger>   // the ledger at every length of the journal

    ghost function Value(): Cache
      reads this
    {
      Cache(objects, pending, entries, dirties)
    }

    ghost predicate Valid()
      reads this, trie
    {
      && trie.Complete() && NodeCache.Closed(trie.db) && Keeps(trie.tree, stored)
      && Kept(Value(), stored, hist) && |hist| == |entries| + 1
    }

    /** The accounts as they stand now. */
    ghost function Now(): Ledger
      reads this, trie
      requires Valid()
    {
      hist[|entries|]
    }

    /** Accounts that the trie differs from without a write being due. */
    ghost function Missed(): set<Address>
      reads this, trie
      requires Valid()
    {
      Unwritten(Now().accounts, stored, dirties, pending)
    }

    /** The account was deleted, and the trie has been written since. */
    ghost predicate Vanished(a: Address)
      reads this
    {
      Journal.Vanished(Value(), a)
    }

    ghost predicate Undeleted()
      reads this
    {
      forall a :: a in objects ==> !objects[a].deleted
    }

    /** On a trie that holds s, the state is s. */
    constructor (t: Trie, ghost s: Accounts)
      ensures trie == t && Value() == Cache(map[], {}, [], map[]) && stored == s && Undeleted()
      ensures t.Complete() && NodeCache.Closed(t.db) && Keeps(t.tree, s) ==>
                Valid() && Now() == Ledger(s, {}) && Missed() == {}
    {
      trie := t;
      objects, pending, entries, dirties := map[], {}, [], map[];
      stored, hist := s, [Ledger(s, {})];
    }

    // ----- reading

    /** Loading an object deletes none and brings none back. */
    twostate predicate Loaded(a: Address)
      reads this
    {
      (old(Undeleted()) ==> Undeleted()) && (Vanished(a) <==> old(Vanished(a)))
    }

    /** The object of an address, deleted ones included; objects come from the trie when first used. */
    method Find(a: Address) returns (o: Option<Obj>)
      requires Valid()
      modifies `objects, trie`root
      ensures Valid() && Now() == old(Now()) && Loaded(a)
      ensures if o.Some? then a in objects && objects[a] == o.value else a !in objects && a !in stored
    {
      if a in objects {
        return Some(objects[a]);
      }
      var data := Load(a);
      if data.None? {
        return None;
      }
      LoadKept(Value(), stored, hist, a);
      objects := objects[a := Obj(data.value, false, false)];
      o := Some(objects[a]);
    }

    /** The balance of an account in the trie. */
    method Load(a: Address) returns (data: Option<nat>)
      requires trie.Complete() && Keeps(trie.tree, stored)
      modifies trie`root
      ensures trie.Complete()
      ensures data == if a in stored then Some(stored[a]) else None
    {
      var r := trie.TryGet(a);
      ReadAccount(trie.tree, stored, a);
      if r.value.None? {
        return None;
      }
      AccountRoundTrip(stored[a]);
      data := DecodeAccount(r.value.value.bytes);
    }

    /** The object of an existing account. */
    method GetObject(a: Address) returns (o: Option<Obj>)
      requires Valid()
      modifies `objects, trie`root
      ensures Valid() && Now() == old(Now()) && Loaded(a)
      ensures o.Some? <==> a in Now().accounts
      ensures o.Some? ==> && a in objects && objects[a] == o.value && !o.value.deleted
                          && o.value.balance == Now().accounts[a] && (o.value.suicided <==> a in Now().doomed)
      ensures o.None? && a in objects ==> objects[a].deleted
    {
      o := Find(a);
      KeptFacts(Value(), stored, hist, a);
      if o.Some? && o.value.deleted {
        o := None;
      }
    }

    method GetBalance(a: Address) returns (r: nat)
      requires Valid()
      modifies `objects, trie`root
      ensures Valid() && Now() == old(Now()) && Loaded(a) && r == Balance(Now().accounts, a)
    {
      var o := GetObject(a);
      r := if o.Some? then o.value.balance else 0;
    }

    method Exist(a: Address) returns (r: bool)
      requires Valid()
      modifies `objects, trie`root
      ensures Valid() && Now() == old(Now()) && Loaded(a) && (r <==> a in Now().accounts)
    {
      var o := GetObject(a);
      r := o.Some?;
    }

    method HasSuicided(a: Address) returns (r: bool)
      requires Valid()
      modifies `objects, trie`root
      ensures Valid() && Now() == old(Now()) && Loaded(a) && (r <==> a in Now().accounts && a in Now().doomed)
    {
      var o := GetObject(a);
      r := o.Some? && o.value.suicided;
    }

    // ----- changing

    /** Nothing but the cache, the journal and the history has changed; the journal only grew. */
    twostate predicate Grew()
      reads this, trie
    {
      && trie == old(trie) && stored == old(stored) && pending == old(pending)
      && old(hist) <= hist && old(entries) <= entries && (old(Undeleted()) ==> Undeleted())
    }

    /** A new object in place of a missing or a deleted one. */
    method GetOrNew(a: Address)
      requires Valid()
      modifies `objects, `entries, `dirties, `hist, trie`root
      ensures Valid() && Grew() && a in objects && !objects[a].deleted && a in Now().accounts
          && Now().accounts[a] == objects[a].balance
      ensures Now() == old(Now()).(accounts := old(Now()).accounts[a := Balance(old(Now()).accounts, a)])
      ensures Missed() == old(Missed()) + if old(Vanished(a)) then {a} else {}
    {
      var o := GetObject(a);
      if o.Some? {
        assert Now().accounts[a := Now().accounts[a]] == Now().accounts;
      } else {
        NewObject(a);
      }
    }

    /** An empty object, and the journal entry that takes it back. */
    method NewObject(a: Address)
      requires Valid() && a !in Now().accounts && (a in objects ==> objects[a].deleted)
      modifies `objects, `entries, `dirties, `hist
      ensures Valid() && Grew() && a in objects && !objects[a].deleted
      ensures Now() == old(Now()).(accounts := old(Now()).accounts[a := 0]) && objects[a].balance == 0
      ensures Missed() == old(Missed()) + if old(Vanished(a)) then {a} else {}
    {
      KeptFacts(Value(), stored, hist, a);
      if a in objects {
        ResetKept(Value(), stored, hist, a);
        Record(ResetObject(a, objects[a]), Obj(0, false, false));
      } else {
        CreateKept(Value(), stored, hist, a);
        Record(CreateObject(a), Obj(0, false, false));
      }
    }

    /** Appends to the journal and sets an object. */
    method Record(e: Change, o: Obj)
      requires |hist| == |entries| + 1
      modifies `objects, `entries, `dirties, `hist
      ensures Value() == Changed(old(Value()), e, o)
      ensures hist == old(hist) + [Replaced(old(hist[|entries|]), e.account, o)]
    {
      hist := hist + [Replaced(hist[|entries|], e.account, o)];
      entries := entries + [e];
      if !e.ResetObject? {
        dirties := Bump(dirties, e.account);
      }
      objects := objects[e.account := o];
    }

    method SetObjectBalance(a: Address, v: nat)
      requires Valid() && a in objects && !objects[a].deleted && v < TWO_64
      modifies `objects, `entries, `dirties, `hist
      ensures Valid() && Grew()
      ensures Now() == old(Now()).(accounts := old(Now()).accounts[a := v]) && Missed() == old(Missed()) - {a}
    {
      BalanceKept(Value(), stored, hist, a, v);
      Record(BalanceChange(a, objects[a].balance), objects[a].(balance := v));
    }

    method Touch(a: Address)
      requires Valid() && a in objects && !objects[a].deleted
      modifies `entries, `dirties, `hist
      ensures Valid() && Grew() && Now() == old(Now()) && Missed() == old(Missed()) - {a}
    {
      TouchKept(Value(), stored, hist, a);
      hist := hist + [hist[|entries|]];
      entries := entries + [TouchChange(a)];
      dirties := Touched(dirties, a);
    }

    /** Balances are 64-bit numbers and wrap around. */
    method AddBalance(a: Address, v: nat)
      requires Valid() && v < TWO_64
      modifies `objects, `entries, `dirties, `hist, trie`root
      ensures Valid() && Grew()
      ensures Now() == old(Now()).(accounts := old(Now()).accounts[a := (Balance(old(Now()).accounts, a) + v) % TWO_64])
      ensures Missed() == old(Missed()) - {a}
    {
      GetOrNew(a);
      KeptFacts(Value(), stored, hist, a);
      if v == 0 {
        if objects[a].balance == 0 {
          Touch(a);
        } else if a in Missed() {
          KeptMissed(Value(), stored, hist, a);
        }
      } else {
        SetObjectBalance(a, (objects[a].balance + v) % TWO_64);
      }
    }

    method SubBalance(a: Address, v: nat)
      requires Valid() && v < TWO_64
      modifies `objects, `entries, `dirties, `hist, trie`root
      ensures Valid() && Grew()
      ensures Now() == old(Now()).(accounts := old(Now()).accounts[a := (Balance(old(Now()).accounts, a)
          + TWO_64 - v) % TWO_64])
      ensures Missed() == if v != 0 then old(Missed()) - {a} else if old(Vanished(a)) then old(Missed()) + {a}
          else old(Missed())
    {
      GetOrNew(a);
      KeptFacts(Value(), stored, hist, a);
      if v != 0 {
        SetObjectBalance(a, (objects[a].balance + TWO_64 - v) % TWO_64);
      }
    }

    method SetBalance(a: Address, v: nat)
      requires Valid() && v < TWO_64
      modifies `objects, `entries, `dirties, `hist, trie`root
      ensures Valid() && Grew()
      ensures Now() == old(Now()).(accounts := old(Now()).accounts[a := v]) && Missed() == old(Missed()) - {a}
    {
      GetOrNew(a);
      SetObjectBalance(a, v);
    }

    /** The account keeps existing, empty and marked, until the state is finalised. */
    method Suicide(a: Address) returns (r: bool)
      requires Valid()
      modifies `objects, `entries, `dirties, `hist, trie`root
      ensures Valid() && Grew() && (r <==> a in old(Now()).accounts)
      ensures Now() == if r then Ledger(old(Now()).accounts[a := 0], old(Now()).doomed + {a}) else old(Now())
      ensures Missed() == old(Missed()) - {a}
    {
      var o := GetObject(a);
      if o.None? {
        return false;
      }
      SuicideKept(Value(), stored, hist, a);
      Record(SuicideChange(a, objects[a].suicided, objects[a].balance), Obj(0, true, false));
      r := true;
    }

    /** A new account takes over the balance of an existing one, but not its mark. */
    method CreateAccount(a: Address)
      requires Valid()
      modifies `objects, `entries, `dirties, `hist, trie`root
      ensures Valid() && Grew()
      ensures Now() == Ledger(old(Now()).accounts[a := Balance(old(Now()).accounts, a)], old(Now()).doomed - {a})
      ensures Missed() == if old(Vanished(a)) then old(Missed()) + {a} else old(Missed())
    {
      var o := Find(a);
      KeptFacts(Value(), stored, hist, a);
      if o.None? {
        CreateKept(Value(), stored, hist, a);
        Record(CreateObject(a), Obj(0, false, false));
      } else {
        ResetKept(Value(), stored, hist, a);
        Record(ResetObject(a, o.value), Renewed(o.value));
      }
    }

    /** Takes back everything since the journal had length snapshot. */
    method Revert(snapshot: nat)
      requires Valid() && snapshot <= |entries|
      modifies `objects, `entries, `dirties, `hist
      ensures Valid() && entries == old(entries)[..snapshot] && hist == old(hist)[..snapshot + 1]
      ensures Now() == old(hist)[snapshot]
      ensures snapshot < |old(entries)| ==> forall a :: a != RIPEMD ==> DirtyCount(dirties, a) == Count(entries, a)
    {
      var i := |entries|;
      while i > snapshot
        invariant snapshot <= i <= |old(entries)| && |entries| == i
        invariant Valid() && entries == old(entries)[..i] && hist == old(hist)[..i + 1]
        invariant i < |old(entries)| ==> forall a :: a != RIPEMD ==> DirtyCount(dirties, a) == Count(entries, a)
      {
        i := i - 1;
        RevertLast();
      }
    }

    method RevertLast()
      requires Valid() && |entries| > 0
      modifies `objects, `entries, `dirties, `hist
      ensures Valid() && entries == old(entries)[..|old(entries)| - 1] && hist == old(hist)[..|old(entries)|]
      ensures forall a :: a != RIPEMD ==> DirtyCount(dirties, a) == Count(entries, a)
    {
      RevertKept(Value(), stored, hist);
      var e := entries[|entries| - 1];
      hist := hist[..|entries|];
      objects := Undo(objects, e);
      dirties := Removed(dirties, e);
      entries := entries[..|entries| - 1];
    }

    // ----- finalising and committing

    /** Deletes what is marked, makes dirty accounts pending and clears the journal. */
    method Finalise(deleteEmpty: bool)
      requires Valid()
      modifies `objects, `pending, `entries, `dirties, `hist
      ensures Valid() && entries == [] && dirties.Keys * objects.Keys <= pending <= objects.Keys
      ensures Now() == FinalLedger(old(Value()), old(Now()), deleteEmpty) && Missed() == old(Missed())
      ensures Value() == Finalised(old(Value()), deleteEmpty)
      ensures FinalSteps(old(Now()), Now(), old(dirties).Keys * old(objects).Keys, deleteEmpty)
    {
      FinalExact(Value(), stored, hist, deleteEmpty);
      FinaliseKept(Value(), stored, hist, deleteEmpty);
      ghost var c, l := Value(), hist[|entries|];
      FinaliseCache(deleteEmpty);
      hist := [FinalLedger(c, l, deleteEmpty)];
    }

    method FinaliseCache(deleteEmpty: bool)
      modifies `objects, `pending, `entries, `dirties
      ensures Value() == Finalised(old(Value()), deleteEmpty)
    {
      MarkDeleted(deleteEmpty);
      if |entries| > 0 {
        entries, dirties := [], map[];
      }
    }

    /** The loop over the dirty addresses; an address without an object is skipped. */
    method MarkDeleted(deleteEmpty: bool)
      modifies `objects, `pending
      ensures objects == Finalised(old(Value()), deleteEmpty).objects
      ensures pending == Finalised(old(Value()), deleteEmpty).pending
    {
      ghost var c := Value();
      var todo := dirties.Keys;
      while todo != {}
        invariant todo <= dirties.Keys && objects.Keys == c.objects.Keys
        invariant pending == c.pending + ((dirties.Keys - todo) * c.objects.Keys)
        invariant forall a :: a in objects ==>
            objects[a] == (if a in dirties && a !in todo && Goes(c.objects[a], deleteEmpty)
            then c.objects[a].(deleted := true) else c.objects[a])
        decreases todo
      {
        var a :| a in todo;
        if a in objects {
          if Goes(objects[a], deleteEmpty) {
            objects := objects[a := objects[a].(deleted := true)];
          }
          pending := pending + {a};
        }
        todo := todo - {a};
      }
    }

    /** Writes the pending accounts to the trie and hashes it. */
    method IntermediateRoot(deleteEmpty: bool) returns (root: Blob)
      requires Valid()
      modifies `objects, `pending, `entries, `dirties, `hist, `stored, trie`root, trie`unhashed, trie`tree
      ensures Valid() && entries == [] && pending == {} && root == T.RootHash(trie.tree)
      ensures Now() == FinalLedger(old(Value()), old(Now()), deleteEmpty)
      ensures (forall a :: Balance(stored, a) == Balance(Now().accounts, a)) && Missed() == old(Missed())
      ensures stored == Now().accounts - Missed() && Value() == Finalised(old(Value()), deleteEmpty).(pending := {})
    {
      Finalise(deleteEmpty);
      Flush();
      root := trie.Hash();
    }

    method Flush()
      requires Valid() && entries == [] && dirties.Keys * objects.Keys <= pending <= objects.Keys
      modifies `pending, `stored, trie`root, trie`unhashed, trie`tree
      ensures Valid() && pending == {} && Now() == old(Now()) && Missed() == old(Missed())
      ensures (forall a :: Balance(stored, a) == Balance(Now().accounts, a)) && stored == Now().accounts - Missed()
    {
      ghost var s := stored;
      KeptBounds(Value(), stored, hist);
      WritePending();
      FlushKept(Value(), s, hist[0], stored);
      pending := {};
    }

    /** In any order; deleted objects are removed from the trie. */
    method WritePending()
      requires trie.Complete() && Keeps(trie.tree, stored) && pending <= objects.Keys
      requires forall a :: a in pending && !objects[a].deleted ==> objects[a].balance < TWO_64
      modifies `stored, trie`root, trie`unhashed, trie`tree
      ensures trie.Complete() && Keeps(trie.tree, stored)
      ensures Flushing(objects, old(stored), stored, pending) && FlushedValues(objects, old(stored), stored, pending)
    {
      var todo := pending;
      while todo != {}
        invariant todo <= pending && trie.Complete() && Keeps(trie.tree, stored)
        invariant Flushing(objects, old(stored), stored, pending - todo)
            && FlushedValues(objects, old(stored), stored, pending - todo)
        decreases todo
      {
        var a :| a in todo;
        FlushStep(objects, old(stored), stored, pending - todo, a);
        assert pending - (todo - {a}) == pending - todo + {a};
        WriteOne(a);
        todo := todo - {a};
      }
      assert pending - {} == pending;
    }

    method WriteOne(a: Address)
      requires trie.Complete() && Keeps(trie.tree, stored) && a in objects
      requires !objects[a].deleted ==> objects[a].balance < TWO_64
      modifies `stored, trie`root, trie`unhashed, trie`tree
      ensures trie.Complete() && Keeps(trie.tree, stored) && stored == Flushed(old(stored), a, objects[a])
    {
      if objects[a].deleted {
        EraseOne(a);
      } else {
        SaveOne(a, objects[a].balance);
      }
    }

    method EraseOne(a: Address)
      requires trie.Complete() && Keeps(trie.tree, stored)
      modifies `stored, trie`root, trie`unhashed, trie`tree
      ensures trie.Complete() && Keeps(trie.tree, stored) && stored == old(stored) - {a}
    {
      EraseAccount(trie.tree, stored, a);
      var r := trie.TryDelete(a);
      stored := stored - {a};
    }

    method SaveOne(a: Address, v: nat)
      requires trie.Complete() && Keeps(trie.tree, stored) && v < TWO_64
      modifies `stored, trie`root, trie`unhashed, trie`tree
      ensures trie.Complete() && Keeps(trie.tree, stored) && stored == old(stored)[a := v]
    {
      WriteAccount(trie.tree, stored, a, v);
      var r := trie.TryUpdate(a, Raw(AccountBytes(v)));
      stored := stored[a := v];
    }

    /** Afterwards the whole state can be read back under the returned root. */
    method Commit(deleteEmpty: bool) returns (root: Blob)
      requires Valid()
      modifies `objects, `pending, `entries, `dirties, `hist, `stored, trie
      ensures Valid() && entries == [] && pending == {} && root == T.RootHash(trie.tree)
      ensures Now() == FinalLedger(old(Value()), old(Now()), deleteEmpty)
      ensures (forall a :: Balance(stored, a) == Balance(Now().accounts, a)) && Missed() == old(Missed())
      ensures stored == Now().accounts - Missed() && Value() == Finalised(old(Value()), deleteEmpty).(pending := {})
      ensures C.Extends(old(trie.db), trie.db) && (T.Canon(trie.tree) ==> N.Readable(trie.db, trie.tree))
    {
      root := IntermediateRoot(deleteEmpty);
      root := trie.Commit();
    }

    /** Drops the cache and reopens the trie at another root, if that is known: as s, if the root stands for s. */
    method Reset(root: Blob, ghost t: T.Tree, ghost s: Accounts) returns (r: N.Outcome<()>)
      requires Valid()
      modifies this
      ensures r == Opening(old(trie.db), root) && (r.Missing? <==> !HasRoot(old(trie.db), root))
      ensures HasRoot(old(trie.db), root) && Names(root, t) ==> r.Done? && trie.tree == t
      ensures r.Done? ==> fresh(trie) && trie.db == old(trie.db) && Undeleted()
      ensures r.Done? && StandsFor(root, t, s) ==>
                Valid() && Now() == Ledger(s, {}) && stored == s && Missed() == {}
      ensures !r.Done? ==> Valid() && trie == old(trie) && stored == old(stored)
      ensures !r.Done? ==> Now() == old(Now()) && Missed() == old(Missed())
    {
      var tr;
      r, tr := OpenTrie(trie.db, root, t);
      if r.Done? {
        if Keeps(t, s) {
          ReopenKept(Value(), stored, hist, s);
        }
        trie := tr;
        Clear(s);
      }
    }

    /** An empty cache; a journal without entries is kept. */
    method Clear(ghost s: Accounts)
      modifies `objects, `pending, `entries, `dirties, `stored, `hist
      ensures Value() == Cache(map[], {}, [], if |old(entries)| > 0 then map[] else old(dirties))
      ensures stored == s && hist == [Ledger(s, {})]
    {
      objects, pending := map[], {};
      if |entries| > 0 {
        entries, dirties := [], map[];
      }
      stored, hist := s, [Ledger(s, {})];
    }
  }

  /** A state committed and reopened at the returned root reads the same, marked accounts as zero. */
  method CommitThenReopen(db: StateDB, deleteEmpty: bool)
    requires db.Valid()
    modifies db, db.trie
    ensures db.Valid()
    ensures forall a :: Balance(db.Now().accounts, a) == if a in old(db.Now()).doomed then 0
        else Balance(old(db.Now()).accounts, a)
  {
    ghost var l := db.Now();
    forall a
      ensures Balance(FinalLedger(db.Value(), l, deleteEmpty).accounts, a) == if a in l.doomed then 0
          else Balance(l.accounts, a)
    {
      FinalBalance(db.Value(), db.stored, db.hist, deleteEmpty, a);
    }
    var root := db.Commit(deleteEmpty);
    ghost var t, s := db.trie.tree, db.stored;
    NilRoot(t);
    var r := db.Reset(root, t, s);
  }

  /**
    Not every account that differs from the trie is dirty or pending. An account is removed and
    the removal is written; creating the account again resets a deleted object, which makes
    nothing dirty. The next commit leaves the account out of the trie, and it is gone on reopening.
   */
  method RecreatedIsMissed(db: StateDB, a: Address)
    requires db.Valid() && a in db.Now().accounts
    modifies db, db.trie
    ensures db.Valid() && a !in db.Now().accounts
  {
    RemoveAndWrite(db, a);
    db.CreateAccount(a);
    assert a in db.Now().accounts && a in db.Missed();
    var root := db.Commit(false);
    ghost var t, s := db.trie.tree, db.stored;
    NilRoot(t);
    var r := db.Reset(root, t, s);
  }

  method RemoveAndWrite(db: StateDB, a: Address)
    requires db.Valid() && a in db.Now().accounts
    modifies db`objects, db`pending, db`entries, db`dirties, db`hist, db`stored, db.trie
    ensures db.Valid() && db.Vanished(a) && a !in db.Now().accounts
  {
    var killed := db.Suicide(a);
    DoomedVanishes(db.Value(), db.stored, db.hist, false, a);
    var root := db.Commit(false);
  }

  // ----- runs

  datatype Op =
    | Add(a: Address, v: nat)
    | Sub(a: Address, v: nat)
    | SetTo(a: Address, v: nat)
    | Kill(a: Address)
    | Create(a: Address)
    | Read(a: Address)

  predicate OpOk(op: Op) {
    match op
    case Add(_, v) => v < TWO_64
    case Sub(_, v) => v < TWO_64
    case SetTo(_, v) => v < TWO_64
    case _ => true
  }

  method Perform(db: StateDB, op: Op)
    requires db.Valid() && OpOk(op)
    modifies db`objects, db`entries, db`dirties, db`hist, db.trie`root
    ensures db.Valid() && old(db.hist) <= db.hist && old(db.entries) <= db.entries
  {
    match op {
      case Add(a, v) => db.AddBalance(a, v);
      case Sub(a, v) => db.SubBalance(a, v);
      case SetTo(a, v) => db.SetBalance(a, v);
      case Kill(a) => var r := db.Suicide(a);
      case Create(a) => db.CreateAccount(a);
      case Read(a) => var r := db.GetBalance(a);
    }
  }

  lemma MissedSame(accounts: Accounts, stored: Accounts, d: map<Address, nat>, d': map<Address, nat>,
      pending: set<Address>)
    requires forall a :: a != RIPEMD ==> (a in d <==> a in d')
    ensures Unwritten(accounts, stored, d, pending) - {RIPEMD} == Unwritten(accounts, stored, d', pending) - {RIPEMD}
  {
  }

  /** Whatever is done, reverting to the journal length of before brings everything back. */
  method RunThenRevert(db: StateDB, ops: seq<Op>)
    requires db.Valid() && forall i :: 0 <= i < |ops| ==> OpOk(ops[i])
    modifies db`objects, db`entries, db`dirties, db`hist, db.trie`root
    ensures db.Valid() && db.Now() == old(db.Now()) && db.entries == old(db.entries)
    ensures forall a :: a != RIPEMD ==> DirtyCount(db.dirties, a) == old(DirtyCount(db.dirties, a))
    ensures db.Missed() - {RIPEMD} == old(db.Missed()) - {RIPEMD}
  {
    var snapshot := |db.entries|;
    KeptCounts(db.Value(), db.stored, db.hist);
    for i := 0 to |ops|
      invariant db.Valid() && old(db.hist) <= db.hist && old(db.entries) <= db.entries
    {
      Perform(db, ops[i]);
    }
    db.Revert(snapshot);
    KeptCounts(db.Value(), db.stored, db.hist);
    assert db.entries == old(db.entries);
    MissedSame(db.Now().accounts, db.stored, old(db.dirties), db.dirties, db.pending);
  }
}
