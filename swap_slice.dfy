/**
 * The pending-transaction store of src/features/tokenSwap/slice.ts: a list
 * of transactions being awaited, kept free of duplicate hashes, an entry
 * added when `awaitTransaction` starts and removed when it settles.
 */
module SwapSlice {
  import opened Wrappers
  import opened Types
  import opened Seqs

  /** `findIndex` by hash: -1 when absent, else the first matching index. */
  function FindIndexByHash(s: seq<StoreTransaction>, hash: string): (i: int)
    ensures -1 <= i < |s|
    ensures i == -1 <==> forall k :: 0 <= k < |s| ==> s[k].hash != hash
    ensures 0 <= i ==> s[i].hash == hash && forall k :: 0 <= k < i ==> s[k].hash != hash
  {
    FindIndex(s, (t: StoreTransaction) => t.hash == hash)
  }

  predicate HasHash(s: seq<StoreTransaction>, hash: string) {
    FindIndexByHash(s, hash) != -1
  }

  /** The store's invariant: no two entries share a hash. */
  ghost predicate UniqueHashes(s: seq<StoreTransaction>) {
    forall i, j :: 0 <= i < j < |s| ==> s[i].hash != s[j].hash
  }

  /** The list after `addTransaction`: appended only when its hash is new. */
  function Added(s: seq<StoreTransaction>, t: StoreTransaction): (r: seq<StoreTransaction>)
    ensures HasHash(r, t.hash)
    ensures !HasHash(s, t.hash) ==> r == s + [t]
    ensures HasHash(s, t.hash) ==> r == s
    ensures UniqueHashes(s) ==> UniqueHashes(r)
  {
    if FindIndexByHash(s, t.hash) == -1 then
      var r := s + [t];
      assert r[|s|] == t;
      r
    else s
  }

  /** The list after `removeTransaction`: every entry with that hash filtered out. */
  function Removed(s: seq<StoreTransaction>, hash: string): (r: seq<StoreTransaction>)
    ensures !HasHash(r, hash)
    ensures forall t :: t in r <==> t in s && t.hash != hash
    ensures KeepsCounts(r, s, (t: StoreTransaction) => t.hash != hash)
    ensures IsSubsequence(r, s)
  {
    var r := Filter(s, (t: StoreTransaction) => t.hash != hash);
    assert forall k :: 0 <= k < |r| ==> r[k] in r;
    r
  }

  lemma {:induction false} RemovedKeepsUnique(s: seq<StoreTransaction>, hash: string)
    requires UniqueHashes(s)
    ensures UniqueHashes(Removed(s, hash))
  {
    if s != [] {
      var tail := s[1..];
      assert UniqueHashes(tail) by {
        forall i, j | 0 <= i < j < |tail| ensures tail[i].hash != tail[j].hash {
          assert tail[i] == s[i + 1] && tail[j] == s[j + 1];
        }
      }
      RemovedKeepsUnique(tail, hash);
      var rest := Removed(tail, hash);
      assert Removed(s, hash) == if s[0].hash != hash then [s[0]] + rest else rest;
      if s[0].hash != hash {
        var r := [s[0]] + rest;
        forall i, j | 0 <= i < j < |r| ensures r[i].hash != r[j].hash {
          if i == 0 {
            assert r[j] in rest;
            assert r[j] in tail;
            var k :| 0 <= k < |tail| && tail[k] == r[j];
            assert s[k + 1] == r[j];
          } else {
            assert r[i] == rest[i - 1] && r[j] == rest[j - 1];
          }
        }
      }
    }
  }

  /** Removing a hash that is not stored changes nothing. */
  lemma {:induction false} RemoveAbsent(s: seq<StoreTransaction>, hash: string)
    requires !HasHash(s, hash)
    ensures Removed(s, hash) == s
  {
    if s != [] {
      assert s[0].hash != hash;
      assert !HasHash(s[1..], hash);
      RemoveAbsent(s[1..], hash);
      assert s == [s[0]] + s[1..];
    }
  }

  /** Removal is idempotent: a second settlement of the same hash is a no-op. */
  lemma RemoveIdempotent(s: seq<StoreTransaction>, hash: string)
    ensures Removed(Removed(s, hash), hash) == Removed(s, hash)
  {
    RemoveAbsent(Removed(s, hash), hash);
  }

  /** With unique hashes, removing a stored hash drops exactly one entry. */
  lemma {:induction false} RemovePresentShrinksByOne(s: seq<StoreTransaction>, hash: string)
    requires UniqueHashes(s)
    requires HasHash(s, hash)
    ensures |Removed(s, hash)| == |s| - 1
  {
    var tail := s[1..];
    assert s == [s[0]] + tail;
    if s[0].hash == hash {
      assert !HasHash(tail, hash);
      RemoveAbsent(tail, hash);
    } else {
      assert HasHash(tail, hash) by {
        var i := FindIndexByHash(s, hash);
        assert i > 0 && tail[i - 1].hash == hash;
      }
      assert UniqueHashes(tail) by {
        forall i, j | 0 <= i < j < |tail| ensures tail[i].hash != tail[j].hash {
          assert tail[i] == s[i + 1] && tail[j] == s[j + 1];
        }
      }
      RemovePresentShrinksByOne(tail, hash);
    }
  }

  /** Appending then removing a new hash restores the list exactly. */
  lemma {:induction false} RemoveJustAdded(s: seq<StoreTransaction>, t: StoreTransaction)
    requires !HasHash(s, t.hash)
    ensures Removed(s + [t], t.hash) == s
  {
    if s == [] {
      assert [t][1..] == [];
    } else {
      var tail := s[1..];
      assert (s + [t])[1..] == tail + [t];
      assert s[0].hash != t.hash;
      assert !HasHash(tail, t.hash);
      RemoveJustAdded(tail, t);
      assert s == [s[0]] + tail;
    }
  }

  // ---------------------------------------------------------------------------
  // The thunk and its actions.

  /** How awaiting the transaction on chain ended: a receipt (whose `status`
      may be undefined), or an exception with its `toString()`. */
  datatype Settlement = Receipt(status: Option<int>) | Threw(message: string)

  /** Why the comment says the thunk should reject. */
  datatype RejectReason = AlreadyAwaiting | StatusUndefined | Reverted | Exception(message: string)

  /** The thunk's settled action payload. */
  datatype ThunkOutcome = Fulfilled(payload: Option<int>) | Rejected(reason: RejectReason)

  /** The thunk's outcome AS WRITTEN: every `rejectWithValue` result is
      dropped, so it always fulfils, carrying the status when a receipt had one. */
  function AwaitTransactionOutcome(alreadyAwaiting: bool, settlement: Settlement): (r: ThunkOutcome)
    ensures r.Fulfilled?
    ensures r.payload.Some? <==> settlement.Receipt? && settlement.status.Some?
    ensures r.payload.Some? ==> r.payload == settlement.status
  {
    match settlement
    case Receipt(status) => if status.None? then Fulfilled(None) else Fulfilled(status)
    case Threw(_) => Fulfilled(None)
  }

  /** The outcome the comment above the thunk promises: rejection for a
      duplicate hash, a missing confirmation, a reverted (status 0) receipt
      or an exception; fulfilment with the status otherwise. */
  function IntendedAwaitTransactionOutcome(alreadyAwaiting: bool, settlement: Settlement): (r: ThunkOutcome)
    ensures r.Rejected? <==>
      alreadyAwaiting || settlement.Threw? || settlement.status.None? || settlement.status == Some(0)
    ensures r.Fulfilled? ==> settlement.Receipt? && r.payload == settlement.status && r.payload != Some(0)
  {
    if alreadyAwaiting then Rejected(AlreadyAwaiting)
    else match settlement
      case Threw(message) => Rejected(Exception(message))
      case Receipt(status) =>
        if status.None? then Rejected(StatusUndefined)
        else if status.value == 0 then Rejected(Reverted)
        else Fulfilled(status)
  }

  /** Where the two differ: a reverted receipt, or a duplicate await, still
      fulfils as written. */
  lemma AwaitTransactionNeverRejects()
    ensures AwaitTransactionOutcome(false, Receipt(Some(0))) == Fulfilled(Some(0))
    ensures IntendedAwaitTransactionOutcome(false, Receipt(Some(0))) == Rejected(Reverted)
    ensures AwaitTransactionOutcome(true, Receipt(Some(1))) == Fulfilled(Some(1))
    ensures IntendedAwaitTransactionOutcome(true, Receipt(Some(1))) == Rejected(AlreadyAwaiting)
  {}

  /** The lifecycle actions of `awaitTransaction` the store reduces. */
  datatype AwaitAction =
    | Pending(transaction: StoreTransaction)
    | Settled(transaction: StoreTransaction, outcome: ThunkOutcome)

  /** The slice's case wiring: `pending` adds, `fulfilled` and `rejected` remove. */
  function Reduce(s: seq<StoreTransaction>, a: AwaitAction): (r: seq<StoreTransaction>)
    ensures a.Pending? ==> r == Added(s, a.transaction)
    ensures a.Settled? ==> r == Removed(s, a.transaction.hash)
  {
    match a
    case Pending(t) => Added(s, t)
    case Settled(t, outcome) =>
      match outcome
      case Fulfilled(_) => Removed(s, t.hash)
      case Rejected(_) => Removed(s, t.hash)
  }

  /** Every action keeps the hashes unique. */
  lemma ReducePreservesUnique(s: seq<StoreTransaction>, a: AwaitAction)
    requires UniqueHashes(s)
    ensures UniqueHashes(Reduce(s, a))
  {
    if a.Settled? { RemovedKeepsUnique(s, a.transaction.hash); }
  }

  /** Whatever the outcome, a settled hash is gone, and a later `pending`
      for it adds it back at the end. */
  lemma SettleThenReAdd(s: seq<StoreTransaction>, t: StoreTransaction, outcome: ThunkOutcome, u: StoreTransaction)
    requires u.hash == t.hash
    ensures !HasHash(Reduce(s, Settled(t, outcome)), t.hash)
    ensures Reduce(Reduce(s, Settled(t, outcome)), Pending(u)) == Removed(s, t.hash) + [u]
  {}

  /** A duplicate await: pending(h), pending(h), one settlement of h. The
      first settlement already clears h and the list is back to what it was;
      the second settlement then changes nothing. */
  lemma DuplicateAwaitClearsOnFirstSettlement(s: seq<StoreTransaction>, t: StoreTransaction, t2: StoreTransaction,
                                              o1: ThunkOutcome, o2: ThunkOutcome)
    requires !HasHash(s, t.hash) && t2.hash == t.hash
    ensures var s1 := Reduce(Reduce(s, Pending(t)), Pending(t2));
            |s1| == |s| + 1 &&
            Reduce(s1, Settled(t, o1)) == s &&
            Reduce(Reduce(s1, Settled(t, o1)), Settled(t2, o2)) == s
  {
    RemoveJustAdded(s, t);
    RemoveAbsent(s, t.hash);
  }

  /** The store. */
  class TokenSwapStore {
    var transactions: seq<StoreTransaction>

    ghost predicate Valid()
      reads this
    {
      UniqueHashes(transactions)
    }

    /** `initialState`: no transactions. */
    constructor ()
      ensures Valid() && transactions == []
    {
      transactions := [];
    }

    /** `addTransaction`: push unless the hash is already stored. */
    method AddTransaction(transaction: StoreTransaction)
      requires Valid()
      modifies this
      ensures Valid()
      ensures transactions == Added(old(transactions), transaction)
    {
      if FindIndexByHash(transactions, transaction.hash) == -1 {
        transactions := transactions + [transaction];
      }
    }

    /** `removeTransaction`: reassign the list without that hash. */
    method RemoveTransaction(transaction: StoreTransaction)
      requires Valid()
      modifies this
      ensures Valid()
      ensures transactions == Removed(old(transactions), transaction.hash)
    {
      RemovedKeepsUnique(transactions, transaction.hash);
      transactions := Filter(transactions, (t: StoreTransaction) => t.hash != transaction.hash);
    }

    /** The slice reducer receiving one lifecycle action. */
    method Dispatch(action: AwaitAction)
      requires Valid()
      modifies this
      ensures Valid()
      ensures transactions == Reduce(old(transactions), action)
    {
      match action
      case Pending(t) => AddTransaction(t);
      case Settled(t, outcome) =>
        match outcome
        case Fulfilled(_) => RemoveTransaction(t);
        case Rejected(_) => RemoveTransaction(t);
    }

    /** One `awaitTransaction` run with nothing interleaved: `pending`, the
        duplicate check (which, reading the state after `pending`, always
        finds the hash), the await, then the settled action. */
    method AwaitTransaction(transaction: StoreTransaction, settlement: Settlement) returns (outcome: ThunkOutcome)
      requires Valid()
      modifies this
      ensures Valid()
      ensures outcome == AwaitTransactionOutcome(true, settlement) && outcome.Fulfilled?
      ensures transactions == Removed(Added(old(transactions), transaction), transaction.hash)
      ensures !HasHash(transactions, transaction.hash)
    {
      Dispatch(Pending(transaction));
      var alreadyAwaiting := FindIndexByHash(transactions, transaction.hash) != -1;
      assert alreadyAwaiting;
      outcome := AwaitTransactionOutcome(alreadyAwaiting, settlement);
      Dispatch(Settled(transaction, outcome));
    }
  }
}
