/**
  The journaled account cache as a value: cached objects, the journal of changes to them and the
  counts of changes per address, against the plain ledger of accounts they stand for. The history
  is the ledger as it was at every length of the journal.
 */
module Journal {
  import opened Encoding
  import opened Uints

  type Address = seq<byte>

  /** Balances of the accounts that exist. */
  type Accounts = map<Address, nat>

  /** A cached account; a deleted one stays in the cache but no longer exists. */
  datatype Obj = Obj(balance: nat, suicided: bool, deleted: bool)

  type Objects = map<Address, Obj>

  /** What the cache stands for: the accounts, and those among them that are marked suicided. */
  datatype Ledger = Ledger(accounts: Accounts, doomed: set<Address>)

  datatype Change =
    | CreateObject(account: Address)
    | ResetObject(account: Address, prev: Obj)
    | SuicideChange(account: Address, wasSuicided: bool, prevBalance: nat)
    | BalanceChange(account: Address, prevBalance: nat)
    | TouchChange(account: Address)

  /** The address a change makes dirty: none for a reset. */
  function Dirtied(e: Change): Option<Address> {
    if e.ResetObject? then None else Some(e.account)
  }

  /** How many changes in the journal make an address dirty. */
  function Count(entries: seq<Change>, a: Address): nat {
    if |entries| == 0 then 0
    else Count(entries[..|entries| - 1], a) + if Dirtied(entries[|entries| - 1]) == Some(a) then 1 else 0
  }

  function Balance(accounts: Accounts, a: Address): nat {
    if a in accounts then accounts[a] else 0
  }

  // ----- undoing a change

  /** What reverting one entry does to the cached objects. */
  function Undo(objects: Objects, e: Change): Objects {
    match e
    case CreateObject(a) => objects - {a}
    case ResetObject(a, prev) => objects[a := prev]
    case SuicideChange(a, s, b) => if a in objects && !objects[a].deleted then objects[a := Obj(b, s, false)]
        else objects
    case BalanceChange(a, b) => if a in objects then objects[a := objects[a].(balance := b)] else objects
    case TouchChange(_) => objects
  }

  function Mark(doomed: set<Address>, a: Address, on: bool): set<Address> {
    if on then doomed + {a} else doomed - {a}
  }

  /** The same on the ledger. */
  function UndoLedger(l: Ledger, e: Change): Ledger {
    match e
    case CreateObject(a) => Ledger(l.accounts - {a}, l.doomed - {a})
    case ResetObject(a, prev) =>
      if prev.deleted then Ledger(l.accounts - {a}, l.doomed - {a})
      else Ledger(l.accounts[a := prev.balance], Mark(l.doomed, a, prev.suicided))
    case SuicideChange(a, s, b) => Ledger(l.accounts[a := b], Mark(l.doomed, a, s))
    case BalanceChange(a, b) => l.(accounts := l.accounts[a := b])
    case TouchChange(_) => l
  }

  // ----- the invariant

  ghost predicate AgreesAt(objects: Objects, stored: Accounts, l: Ledger, a: Address) {
    if a in objects then
      if objects[a].deleted then a !in l.accounts && a !in l.doomed
      else a in l.accounts && l.accounts[a] == objects[a].balance && (a in l.doomed <==> objects[a].suicided)
    else
      (a in l.accounts <==> a in stored) && (a in stored ==> l.accounts[a] == stored[a]) && a !in l.doomed
  }

  ghost predicate Agrees(objects: Objects, stored: Accounts, l: Ledger) {
    forall a :: AgreesAt(objects, stored, l, a)
  }

  /** The ledger and the trie agree on an account, or it is empty and the trie misses it. */
  ghost predicate CleanAt(l: Ledger, stored: Accounts, a: Address) {
    && (a in stored ==> a in l.accounts)
    && (a in l.accounts && a in stored ==> l.accounts[a] == stored[a])
    && (a in l.accounts && a !in stored ==> l.accounts[a] == 0)
  }

  /** At some length of the journal, accounts it has not changed are as in the trie, or pending. */
  ghost predicate Clean(l: Ledger, stored: Accounts, entries: seq<Change>, pending: set<Address>) {
    forall a :: Count(entries, a) == 0 ==> a !in l.doomed && (a !in pending ==> CleanAt(l, stored, a))
  }

  datatype Cache = Cache(objects: Objects, pending: set<Address>, entries: seq<Change>, dirties: map<Address, nat>)

  const RIPEMD: Address := [0, 0, 0, 0, 0, 0, 0, 0, 0, 0, 0, 0, 0, 0, 0, 0, 0, 0, 0, 3]

  function DirtyCount(dirties: map<Address, nat>, a: Address): nat {
    if a in dirties then dirties[a] else 0
  }

  /** The counts are those of the journal; one address may be counted more often. */
  ghost predicate Tracked(entries: seq<Change>, dirties: map<Address, nat>) {
    && (forall a :: a != RIPEMD ==> DirtyCount(dirties, a) == Count(entries, a))
    && DirtyCount(dirties, RIPEMD) >= Count(entries, RIPEMD)
    && (forall a :: a in dirties ==> dirties[a] > 0)
  }

  /** Step i of the history: the entry undoes it, and a created account was unknown before. */
  ghost predicate StepOk(c: Cache, hist: seq<Ledger>, i: nat)
    requires i < |c.entries| && |hist| == |c.entries| + 1
  {
    var e := c.entries[i];
    && hist[i] == UndoLedger(hist[i + 1], e) && e.account in hist[i + 1].accounts
    && (e.CreateObject? ==> Count(c.entries[..i], e.account) == 0 && e.account !in c.pending)
    && (e.CreateObject? ==> forall j :: 0 <= j < i ==> c.entries[j].account != e.account)
  }

  ghost predicate Bounded(accounts: Accounts) {
    forall a :: a in accounts ==> accounts[a] < TWO_64
  }

  ghost predicate Listed(c: Cache) {
    && c.pending <= c.objects.Keys
    && (forall a :: Count(c.entries, a) > 0 ==> a in c.objects)
    && (forall i :: 0 <= i < |c.entries| ==> c.entries[i].account in c.objects)
  }

  ghost predicate Inv(c: Cache, stored: Accounts, hist: seq<Ledger>) {
    && |hist| == |c.entries| + 1
    && Agrees(c.objects, stored, hist[|c.entries|])
    && (forall i :: 0 <= i < |c.entries| ==> StepOk(c, hist, i))
    && (forall i :: 0 <= i <= |c.entries| ==> Clean(hist[i], stored, c.entries[..i], c.pending))
    && (forall i :: 0 <= i <= |c.entries| ==> Bounded(hist[i].accounts))
    && Listed(c) && Tracked(c.entries, c.dirties) && Bounded(stored)
  }

  // ----- what the trie misses

  /** Accounts that differ from the trie without being dirty or pending: no write is due for them. */
  function Missed(c: Cache, stored: Accounts, l: Ledger): set<Address> {
    Unwritten(l.accounts, stored, c.dirties, c.pending)
  }

  function Unwritten(
    accounts: Accounts, stored: Accounts, dirties: map<Address, nat>, pending: set<Address>): set<Address>
  {
    set a | a in accounts && a !in stored && a !in dirties && a !in pending
  }

  /** The object of an account that has been deleted, in the trie as well. */
  predicate Vanished(c: Cache, a: Address) {
    a in c.objects && c.objects[a].deleted && a !in c.dirties && a !in c.pending
  }

  /** Every other account that differs from the trie in any way is dirty or pending. */
  lemma DiffersOrDue(c: Cache, stored: Accounts, hist: seq<Ledger>, a: Address)
    requires Inv(c, stored, hist) && a !in c.dirties && a !in c.pending
    ensures var l := hist[|c.entries|];
            if a in Missed(c, stored, l) then l.accounts[a] == 0
            else (a in l.accounts <==> a in stored) && (a in stored ==> l.accounts[a] == stored[a])
    ensures a in c.objects && c.objects[a].deleted ==> a !in hist[|c.entries|].accounts && a !in stored
  {
    assert c.entries[..|c.entries|] == c.entries;
    assert Clean(hist[|c.entries|], stored, c.entries, c.pending);
    assert DirtyCount(c.dirties, a) == 0 && Count(c.entries, a) == 0;
    assert CleanAt(hist[|c.entries|], stored, a);
    assert AgreesAt(c.objects, stored, hist[|c.entries|], a);
  }

  /** A change makes its account dirty; a reset alone does not, and is missed over a vanished account. */
  lemma ChangedMissed(c: Cache, stored: Accounts, hist: seq<Ledger>, e: Change, o: Obj)
    requires Inv(c, stored, hist) && (e.ResetObject? ==> e.account in c.objects)
    ensures var l := hist[|c.entries|];
            Missed(Changed(c, e, o), stored, Replaced(l, e.account, o)) ==
            if !e.ResetObject? then Missed(c, stored, l) - {e.account}
            else if Vanished(c, e.account) then Missed(c, stored, l) + {e.account}
            else Missed(c, stored, l)
  {
    var l, a := hist[|c.entries|], e.account;
    if e.ResetObject? {
      assert AgreesAt(c.objects, stored, l, a);
      if a !in c.dirties && a !in c.pending {
        DiffersOrDue(c, stored, hist, a);
      }
    }
  }

  // ----- a new entry

  function Bump(dirties: map<Address, nat>, a: Address): map<Address, nat> {
    dirties[a := DirtyCount(dirties, a) + 1]
  }

  /** What appending to the journal does to the counts. */
  function Appended(dirties: map<Address, nat>, e: Change): map<Address, nat> {
    if e.ResetObject? then dirties else Bump(dirties, e.account)
  }

  lemma CountSnoc(entries: seq<Change>, e: Change, a: Address)
    ensures Count(entries + [e], a) == Count(entries, a) + if Dirtied(e) == Some(a) then 1 else 0
  {
    assert (entries + [e])[..|entries|] == entries;
  }

  lemma TrackedAppend(entries: seq<Change>, dirties: map<Address, nat>, e: Change)
    requires Tracked(entries, dirties)
    ensures Tracked(entries + [e], Appended(dirties, e))
  {
    forall a
      ensures Count(entries + [e], a) == Count(entries, a) + if Dirtied(e) == Some(a) then 1 else 0
    {
      CountSnoc(entries, e, a);
    }
  }

  /** What must hold of a change for the journal to be able to take it back. */
  ghost predicate Undoable(c: Cache, stored: Accounts, l: Ledger, e: Change, objects: Objects, l': Ledger) {
    && Agrees(objects, stored, l') && Bounded(l'.accounts)
    && UndoLedger(l', e) == l && e.account in l'.accounts
    && (e.CreateObject? ==> e.account !in c.objects)
    && (forall a :: a != e.account ==>
        (a in l'.accounts <==> a in l.accounts) && Balance(l'.accounts, a) == Balance(l.accounts, a)
        && (a in l'.doomed <==> a in l.doomed))
    && c.objects.Keys <= objects.Keys && e.account in objects
    && (e.ResetObject? && Count(c.entries, e.account) == 0 ==>
          e.account !in l'.doomed && (e.account !in c.pending ==> CleanAt(l', stored, e.account)))
  }

  lemma CleanAppend(c: Cache, stored: Accounts, l: Ledger, e: Change, objects: Objects, l': Ledger)
    requires Clean(l, stored, c.entries, c.pending) && Undoable(c, stored, l, e, objects, l')
    ensures Clean(l', stored, c.entries + [e], c.pending)
  {
    forall a | Count(c.entries + [e], a) == 0
      ensures a !in l'.doomed && (a !in c.pending ==> CleanAt(l', stored, a))
    {
      CountSnoc(c.entries, e, a);
    }
  }

  lemma AppendInv(c: Cache, stored: Accounts, hist: seq<Ledger>, e: Change, objects: Objects, l': Ledger,
      dirties: map<Address, nat>)
    requires Inv(c, stored, hist) && Undoable(c, stored, hist[|c.entries|], e, objects, l')
    requires Tracked(c.entries + [e], dirties)
    ensures Inv(Cache(objects, c.pending, c.entries + [e], dirties), stored, hist + [l'])
  {
    var n := |c.entries|;
    var c', h' := Cache(objects, c.pending, c.entries + [e], dirties), hist + [l'];
    assert c.entries[..n] == c.entries;
    CleanAppend(c, stored, hist[n], e, objects, l');
    forall i | 0 <= i < n + 1
      ensures StepOk(c', h', i)
    {
      assert c'.entries[..i] == c.entries[..i];
      assert i < n ==> StepOk(c, hist, i);
    }
    forall i | 0 <= i <= n + 1
      ensures Clean(h'[i], stored, c'.entries[..i], c.pending)
    {
      assert i <= n ==> c'.entries[..i] == c.entries[..i];
      assert c'.entries[..n + 1] == c'.entries;
    }
    forall a | Count(c'.entries, a) > 0
      ensures a in objects
    {
      CountSnoc(c.entries, e, a);
    }
  }

  // ----- taking an entry back

  lemma UndoAgrees(objects: Objects, stored: Accounts, l: Ledger, e: Change)
    requires Agrees(objects, stored, l) && e.account in objects && e.account in l.accounts
    requires e.CreateObject? ==> e.account !in stored
    ensures Agrees(Undo(objects, e), stored, UndoLedger(l, e))
  {
    assert AgreesAt(objects, stored, l, e.account);
    forall a
      ensures AgreesAt(Undo(objects, e), stored, UndoLedger(l, e), a)
    {
      assert AgreesAt(objects, stored, l, a);
    }
  }

  /** What reverting one entry does to the counts. */
  function Removed(dirties: map<Address, nat>, e: Change): map<Address, nat> {
    if e.ResetObject? || e.account !in dirties then dirties
    else if dirties[e.account] <= 1 then dirties - {e.account}
    else dirties[e.account := dirties[e.account] - 1]
  }

  lemma TrackedRemove(entries: seq<Change>, dirties: map<Address, nat>)
    requires Tracked(entries, dirties) && |entries| > 0
    ensures Tracked(entries[..|entries| - 1], Removed(dirties, entries[|entries| - 1]))
  {
    var f, e := entries[..|entries| - 1], entries[|entries| - 1];
    assert entries == f + [e];
    forall a
      ensures Count(entries, a) == Count(f, a) + if Dirtied(e) == Some(a) then 1 else 0
    {
      CountSnoc(f, e, a);
    }
  }

  function Reverted(c: Cache): Cache
    requires |c.entries| > 0
  {
    var n, e := |c.entries| - 1, c.entries[|c.entries| - 1];
    Cache(Undo(c.objects, e), c.pending, c.entries[..n], Removed(c.dirties, e))
  }

  /** An account created since is not in the trie. */
  lemma CreatedIsNew(c: Cache, stored: Accounts, hist: seq<Ledger>)
    requires Inv(c, stored, hist) && |c.entries| > 0
    ensures var e := c.entries[|c.entries| - 1]; e.CreateObject? ==> e.account !in stored
  {
    var n := |c.entries| - 1;
    var e := c.entries[n];
    assert StepOk(c, hist, n);
    if e.CreateObject? {
      assert Clean(hist[n], stored, c.entries[..n], c.pending);
      assert CleanAt(hist[n], stored, e.account);
    }
  }

  lemma RevertListed(c: Cache, hist: seq<Ledger>)
    requires Listed(c) && |c.entries| > 0 && |hist| == |c.entries| + 1 && StepOk(c, hist, |c.entries| - 1)
    ensures Listed(Reverted(c))
  {
    var n, e := |c.entries| - 1, c.entries[|c.entries| - 1];
    forall a | Count(c.entries[..n], a) > 0
      ensures a in Undo(c.objects, e)
    {
      assert Count(c.entries, a) > 0;
    }
  }

  lemma RevertSteps(c: Cache, stored: Accounts, hist: seq<Ledger>, i: nat)
    requires Inv(c, stored, hist) && i + 1 < |c.entries|
    ensures StepOk(Reverted(c), hist[..|c.entries|], i)
  {
    assert StepOk(c, hist, i);
    assert Reverted(c).entries[..i] == c.entries[..i];
  }

  /** Reverting the last entry brings back the state before it. */
  lemma RevertInv(c: Cache, stored: Accounts, hist: seq<Ledger>)
    requires Inv(c, stored, hist) && |c.entries| > 0
    ensures Inv(Reverted(c), stored, hist[..|c.entries|])
  {
    var n, e := |c.entries| - 1, c.entries[|c.entries| - 1];
    var c', h' := Reverted(c), hist[..|c.entries|];
    assert StepOk(c, hist, n);
    CreatedIsNew(c, stored, hist);
    UndoAgrees(c.objects, stored, hist[n + 1], e);
    TrackedRemove(c.entries, c.dirties);
    RevertListed(c, hist);
    forall i | 0 <= i < n
      ensures StepOk(c', h', i)
    {
      RevertSteps(c, stored, hist, i);
    }
    forall i | 0 <= i <= n
      ensures Clean(h'[i], stored, c'.entries[..i], c'.pending)
    {
      assert c'.entries[..i] == c.entries[..i];
    }
  }

  // ----- the changes

  lemma LoadInv(c: Cache, stored: Accounts, hist: seq<Ledger>, a: Address)
    requires Inv(c, stored, hist) && a !in c.objects && a in stored
    ensures Inv(c.(objects := c.objects[a := Obj(stored[a], false, false)]), stored, hist)
  {
    var c' := c.(objects := c.objects[a := Obj(stored[a], false, false)]);
    var l := hist[|c.entries|];
    forall x
      ensures AgreesAt(c'.objects, stored, l, x)
    {
      assert AgreesAt(c.objects, stored, l, x);
    }
    forall i | 0 <= i < |c.entries|
      ensures StepOk(c', hist, i)
    {
      assert StepOk(c, hist, i);
    }
  }

  /** One account of the ledger changes, and its object with it. */
  lemma AgreesSet(objects: Objects, stored: Accounts, l: Ledger, a: Address, o: Obj)
    requires Agrees(objects, stored, l) && !o.deleted
    ensures Agrees(objects[a := o], stored, Ledger(l.accounts[a := o.balance], Mark(l.doomed, a, o.suicided)))
  {
    var objects', l' := objects[a := o], Ledger(l.accounts[a := o.balance], Mark(l.doomed, a, o.suicided));
    forall x
      ensures AgreesAt(objects', stored, l', x)
    {
      assert AgreesAt(objects, stored, l, x);
    }
  }

  /** The ledger after an object has been replaced. */
  function Replaced(l: Ledger, a: Address, o: Obj): Ledger {
    Ledger(l.accounts[a := o.balance], Mark(l.doomed, a, o.suicided))
  }

  function Changed(c: Cache, e: Change, o: Obj): Cache {
    Cache(c.objects[e.account := o], c.pending, c.entries + [e], Appended(c.dirties, e))
  }

  lemma BalanceInv(c: Cache, stored: Accounts, hist: seq<Ledger>, a: Address, v: nat)
    requires Inv(c, stored, hist) && a in c.objects && !c.objects[a].deleted && v < TWO_64
    ensures var o := c.objects[a].(balance := v);
            Inv(Changed(c, BalanceChange(a, c.objects[a].balance), o), stored,
                hist + [Replaced(hist[|c.entries|], a, o)])
  {
    var l, was := hist[|c.entries|], c.objects[a];
    var e, o := BalanceChange(a, was.balance), was.(balance := v);
    var l' := Replaced(l, a, o);
    assert AgreesAt(c.objects, stored, l, a);
    AgreesSet(c.objects, stored, l, a, o);
    assert l'.doomed == l.doomed;
    assert l'.accounts[a := was.balance] == l.accounts;
    TrackedAppend(c.entries, c.dirties, e);
    AppendInv(c, stored, hist, e, c.objects[a := o], l', Appended(c.dirties, e));
  }

  lemma SuicideInv(c: Cache, stored: Accounts, hist: seq<Ledger>, a: Address)
    requires Inv(c, stored, hist) && a in c.objects && !c.objects[a].deleted
    ensures var o := Obj(0, true, false);
            Inv(Changed(c, SuicideChange(a, c.objects[a].suicided, c.objects[a].balance), o), stored,
                hist + [Replaced(hist[|c.entries|], a, o)])
  {
    var l, was := hist[|c.entries|], c.objects[a];
    var e, o := SuicideChange(a, was.suicided, was.balance), Obj(0, true, false);
    var l' := Replaced(l, a, o);
    assert AgreesAt(c.objects, stored, l, a);
    AgreesSet(c.objects, stored, l, a, o);
    assert l'.accounts[a := was.balance] == l.accounts;
    assert Mark(l'.doomed, a, was.suicided) == l.doomed;
    TrackedAppend(c.entries, c.dirties, e);
    AppendInv(c, stored, hist, e, c.objects[a := o], l', Appended(c.dirties, e));
  }

  lemma CreateUndoable(c: Cache, stored: Accounts, l: Ledger, a: Address)
    requires Agrees(c.objects, stored, l) && Bounded(l.accounts) && a !in c.objects && a !in stored
    ensures var o := Obj(0, false, false);
            Undoable(c, stored, l, CreateObject(a), c.objects[a := o], Replaced(l, a, o))
  {
    var e, o := CreateObject(a), Obj(0, false, false);
    var l' := Replaced(l, a, o);
    assert AgreesAt(c.objects, stored, l, a);
    AgreesSet(c.objects, stored, l, a, o);
    assert l'.accounts - {a} == l.accounts && l'.doomed - {a} == l.doomed;
  }

  lemma CreateInv(c: Cache, stored: Accounts, hist: seq<Ledger>, a: Address)
    requires Inv(c, stored, hist) && a !in c.objects && a !in stored
    ensures var o := Obj(0, false, false);
            Inv(Changed(c, CreateObject(a), o), stored, hist + [Replaced(hist[|c.entries|], a, o)])
  {
    var l := hist[|c.entries|];
    var e, o := CreateObject(a), Obj(0, false, false);
    var l' := Replaced(l, a, o);
    CreateUndoable(c, stored, l, a);
    TrackedAppend(c.entries, c.dirties, e);
    AppendInv(c, stored, hist, e, c.objects[a := o], l', Appended(c.dirties, e));
  }

  /** An existing account is replaced by a new one with the same balance, a deleted one by an empty one. */
  function Renewed(o: Obj): Obj {
    Obj(if o.deleted then 0 else o.balance, false, false)
  }

  lemma ResetInv(c: Cache, stored: Accounts, hist: seq<Ledger>, a: Address)
    requires Inv(c, stored, hist) && a in c.objects
    ensures var o := Renewed(c.objects[a]);
            Inv(Changed(c, ResetObject(a, c.objects[a]), o), stored, hist + [Replaced(hist[|c.entries|], a, o)])
  {
    var l, was := hist[|c.entries|], c.objects[a];
    var e, o := ResetObject(a, was), Renewed(was);
    var l' := Replaced(l, a, o);
    assert AgreesAt(c.objects, stored, l, a);
    AgreesSet(c.objects, stored, l, a, o);
    ResetLedger(l, a, was);
    assert c.entries[..|c.entries|] == c.entries;
    assert Count(c.entries, a) == 0 && a !in c.pending ==> CleanAt(l, stored, a);
    assert Bounded(l'.accounts);
    TrackedAppend(c.entries, c.dirties, e);
    AppendInv(c, stored, hist, e, c.objects[a := o], l', Appended(c.dirties, e));
  }

  lemma ResetLedger(l: Ledger, a: Address, was: Obj)
    requires if was.deleted then a !in l.accounts && a !in l.doomed
             else a in l.accounts && l.accounts[a] == was.balance && (a in l.doomed <==> was.suicided)
    ensures UndoLedger(Replaced(l, a, Renewed(was)), ResetObject(a, was)) == l
  {
    var l' := Replaced(l, a, Renewed(was));
    if was.deleted {
      assert l'.accounts - {a} == l.accounts && l'.doomed - {a} == l.doomed;
    } else {
      assert l'.accounts[a := was.balance] == l.accounts;
      assert Mark(l'.doomed, a, was.suicided) == l.doomed;
    }
  }

  /** The counts after a touch: one address is counted twice. */
  function Touched(dirties: map<Address, nat>, a: Address): map<Address, nat> {
    if a == RIPEMD then Bump(Bump(dirties, a), a) else Bump(dirties, a)
  }

  lemma TouchInv(c: Cache, stored: Accounts, hist: seq<Ledger>, a: Address)
    requires Inv(c, stored, hist) && a in c.objects && !c.objects[a].deleted
    ensures Inv(Cache(c.objects, c.pending, c.entries + [TouchChange(a)], Touched(c.dirties, a)), stored,
        hist + [hist[|c.entries|]])
  {
    var l, e := hist[|c.entries|], TouchChange(a);
    assert AgreesAt(c.objects, stored, l, a);
    TrackedAppend(c.entries, c.dirties, e);
    AppendInv(c, stored, hist, e, c.objects, l, Touched(c.dirties, a));
  }

  lemma TouchedMissed(c: Cache, stored: Accounts, l: Ledger, a: Address)
    ensures Missed(Cache(c.objects, c.pending, c.entries + [TouchChange(a)], Touched(c.dirties, a)), stored, l) ==
            Missed(c, stored, l) - {a}
  {
  }

  // ----- finalising and writing

  predicate Goes(o: Obj, deleteEmpty: bool) {
    o.suicided || (deleteEmpty && o.balance == 0)
  }

  /** Dirty objects that are suicided, or empty where those are to go, are marked deleted. */
  function Finalised(c: Cache, deleteEmpty: bool): Cache {
    Cache(map a | a in c.objects :: if a in c.dirties && Goes(c.objects[a], deleteEmpty)
        then c.objects[a].(deleted := true) else c.objects[a],
          c.pending + (c.dirties.Keys * c.objects.Keys),
          [],
          if |c.entries| > 0 then map[] else c.dirties)
  }

  /** Accounts that go when the cache is finalised. */
  function Gone(c: Cache, l: Ledger, deleteEmpty: bool): set<Address> {
    set a | a in l.accounts && a in c.dirties && a in c.objects && Goes(c.objects[a], deleteEmpty)
  }

  /** The ledger afterwards: no account is left suicided. */
  function FinalLedger(c: Cache, l: Ledger, deleteEmpty: bool): Ledger {
    Ledger(l.accounts - Gone(c, l, deleteEmpty), {})
  }

  lemma DoomedGoes(c: Cache, stored: Accounts, hist: seq<Ledger>, deleteEmpty: bool, a: Address)
    requires Inv(c, stored, hist) && a in hist[|c.entries|].doomed
    ensures a in Gone(c, hist[|c.entries|], deleteEmpty)
  {
    assert c.entries[..|c.entries|] == c.entries;
    assert Clean(hist[|c.entries|], stored, c.entries, c.pending);
    assert Count(c.entries, a) > 0;
    assert DirtyCount(c.dirties, a) > 0;
    assert AgreesAt(c.objects, stored, hist[|c.entries|], a);
  }

  lemma FinalAgrees(c: Cache, stored: Accounts, hist: seq<Ledger>, deleteEmpty: bool, a: Address)
    requires Inv(c, stored, hist)
    ensures AgreesAt(Finalised(c, deleteEmpty).objects, stored, FinalLedger(c, hist[|c.entries|], deleteEmpty), a)
  {
    var l := hist[|c.entries|];
    assert AgreesAt(c.objects, stored, l, a);
    if a in l.doomed {
      DoomedGoes(c, stored, hist, deleteEmpty, a);
    }
  }

  lemma FinalClean(c: Cache, stored: Accounts, hist: seq<Ledger>, deleteEmpty: bool)
    requires Inv(c, stored, hist)
    ensures Clean(FinalLedger(c, hist[|c.entries|], deleteEmpty), stored, [], Finalised(c, deleteEmpty).pending)
  {
    var l, l' := hist[|c.entries|], FinalLedger(c, hist[|c.entries|], deleteEmpty);
    assert c.entries[..|c.entries|] == c.entries;
    assert Clean(l, stored, c.entries, c.pending);
    forall a | a !in Finalised(c, deleteEmpty).pending
      ensures CleanAt(l', stored, a)
    {
      assert Count(c.entries, a) > 0 ==> DirtyCount(c.dirties, a) > 0;
      assert Count(c.entries, a) == 0 ==> CleanAt(l, stored, a);
    }
  }

  /** Finalising keeps every account but those that go. */
  lemma FinaliseInv(c: Cache, stored: Accounts, hist: seq<Ledger>, deleteEmpty: bool)
    requires Inv(c, stored, hist)
    ensures var l := hist[|c.entries|];
            Inv(Finalised(c, deleteEmpty), stored, [FinalLedger(c, l, deleteEmpty)])
  {
    var l := hist[|c.entries|];
    var c' := Finalised(c, deleteEmpty);
    forall a
      ensures AgreesAt(c'.objects, stored, FinalLedger(c, l, deleteEmpty), a)
    {
      FinalAgrees(c, stored, hist, deleteEmpty, a);
    }
    FinalClean(c, stored, hist, deleteEmpty);
  }

  /** Finalising makes no difference to what is missed. */
  lemma FinalMissed(c: Cache, stored: Accounts, hist: seq<Ledger>, deleteEmpty: bool)
    requires Inv(c, stored, hist)
    ensures var l := hist[|c.entries|];
            Missed(Finalised(c, deleteEmpty), stored, FinalLedger(c, l, deleteEmpty)) == Missed(c, stored, l)
  {
    var l := hist[|c.entries|];
    forall a
      ensures a in Missed(Finalised(c, deleteEmpty), stored, FinalLedger(c, l, deleteEmpty)) <==>
          a in Missed(c, stored, l)
    {
      assert AgreesAt(c.objects, stored, l, a);
    }
  }

  /** One pending account goes to the trie. */
  function Flushed(stored: Accounts, a: Address, o: Obj): Accounts {
    if o.deleted then stored - {a} else stored[a := o.balance]
  }

  /** Part of the pending accounts has been written. */
  ghost predicate Flushing(objects: Objects, stored: Accounts, stored': Accounts, done: set<Address>) {
    forall a :: if a in done && a in objects then a in stored' <==> !objects[a].deleted
                else a in stored' <==> a in stored
  }

  ghost predicate FlushedValues(objects: Objects, stored: Accounts, stored': Accounts, done: set<Address>) {
    forall a :: a in stored' ==>
        stored'[a] == if a in done && a in objects then objects[a].balance else Balance(stored, a)
  }

  lemma FlushStep(objects: Objects, stored: Accounts, stored': Accounts, done: set<Address>, a: Address)
    requires Flushing(objects, stored, stored', done) && FlushedValues(objects, stored, stored', done) && a in objects
    ensures Flushing(objects, stored, Flushed(stored', a, objects[a]), done + {a})
    ensures FlushedValues(objects, stored, Flushed(stored', a, objects[a]), done + {a})
  {
  }

  /** After all pending accounts have been written, the trie holds the ledger but for what it missed. */
  lemma FlushInv(c: Cache, stored: Accounts, l: Ledger, stored': Accounts)
    requires Inv(c, stored, [l]) && |c.entries| == 0
    requires Flushing(c.objects, stored, stored', c.pending) && FlushedValues(c.objects, stored, stored', c.pending)
    requires c.dirties.Keys * c.objects.Keys <= c.pending
    ensures Inv(c.(pending := {}), stored', [l])
    ensures forall a :: Balance(stored', a) == Balance(l.accounts, a)
    ensures Missed(c.(pending := {}), stored', l) == Missed(c, stored, l)
    ensures stored' == l.accounts - Missed(c, stored, l)
  {
    assert c.entries[..0] == c.entries == [];
    assert Clean(l, stored, c.entries, c.pending);
    forall a
      ensures AgreesAt(c.objects, stored', l, a) && CleanAt(l, stored', a) && a !in l.doomed
    {
      assert AgreesAt(c.objects, stored, l, a);
      assert Count(c.entries, a) == 0;
    }
    assert Clean(l, stored', [], {});
    forall a | a in stored'
      ensures stored'[a] < TWO_64
    {
      assert CleanAt(l, stored', a);
    }
    forall a
      ensures Balance(stored', a) == Balance(l.accounts, a)
    {
      assert CleanAt(l, stored', a);
    }
    forall a
      ensures a in stored' <==> a in l.accounts && a !in Missed(c, stored, l)
    {
      assert AgreesAt(c.objects, stored, l, a);
      assert a !in c.pending ==> CleanAt(l, stored, a);
    }
  }
}
