/**
 The V1 address nonce handler: the same counter and cache, without gas prices, plus a check for duplicates that takes a
 nonce back, and a forced re-fetch. A transaction's payload stands for its receiver, value and data.
 */
module NonceHandlerV1 {
  import opened GoTypes
  import opened NonceCounter
  import opened NonceHandlerV2

  datatype HandlerV1 = HandlerV1(counter: Counter, transactions: Cache)

  function Decremented(h: HandlerV1): HandlerV1 {
    if h.counter.computed > 0 then h.(counter := h.counter.(computed := h.counter.computed - 1)) else h
  }

  ghost predicate SentBefore(cache: Cache, payload: Bytes) {
    exists n :: n in cache && cache[n].payload == payload
  }

  /** SendTransaction: a duplicate is not sent and takes the counter back by one, even if no nonce was taken. */
  ghost function Submit(h: HandlerV1, tx: Tx, checkForDuplicates: bool): HandlerV1 {
    if checkForDuplicates && SentBefore(h.transactions, tx.payload) then Decremented(h)
    else h.(transactions := h.transactions[tx.nonce := tx])
  }

  /** What the sweep leaves in the cache and resends: nothing on the shortcut, else all above the account nonce. */
  function SweptCache(h: HandlerV1, account: uint64): Cache {
    if account == h.counter.computed then map[] else Above(h.transactions, account)
  }

  class AddressNonceHandlerV1 {
    var computedNonceWasSet: bool
    var computedNonce: uint64
    var transactions: Cache

    function Abs(): HandlerV1
      reads this
    {
      HandlerV1(Counter(computedNonceWasSet, computedNonce), transactions)
    }

    constructor ()
      ensures Abs() == HandlerV1(Counter(false, 0), map[])
    {
      computedNonceWasSet, computedNonce, transactions := false, 0, map[];
    }

    method GetNonceUpdatingCurrent(account: Option<uint64>) returns (nonce: Option<uint64>)
      modifies this
      ensures account.None? ==> nonce == None && Abs() == old(Abs())
      ensures account.Some? ==>
        nonce.Some? && (Abs().counter, nonce.value) == Step(old(Abs()).counter, account.value) &&
        transactions == old(transactions)
    {
      if account.None? { return None; }
      if !computedNonceWasSet {
        computedNonce, computedNonceWasSet := account.value, true;
        return Some(computedNonce);
      }
      computedNonce := WrapUint64(computedNonce as int + 1);
      return Some(Max(computedNonce, account.value));
    }

    method ReSendTransactionsIfRequired(account: Option<uint64>) returns (resent: seq<Tx>, ghost order: seq<uint64>)
      modifies this
      ensures account.None? ==> Abs() == old(Abs()) && resent == []
      ensures account.Some? ==>
        && Abs() == old(Abs()).(transactions := SweptCache(old(Abs()), account.value))
        && Lists(order, resent, transactions)
      ensures account.Some? ==> forall n ::
        && (n in transactions <==> n in old(transactions) && account.value < n && account.value != computedNonce)
        && (n in transactions ==> transactions[n] == old(transactions)[n])
    {
      resent, order := [], [];
      if account.None? { return; }
      if account.value == computedNonce {
        transactions := map[];
        return;
      }
      var left := transactions.Keys;
      ghost var cache := transactions;
      while left != {}
        invariant left <= transactions.Keys <= cache.Keys
        invariant forall n :: n in cache ==> (n in transactions <==> n in left || n > account.value)
        invariant forall n :: n in transactions ==> transactions[n] == cache[n]
        invariant Lists(order, resent, transactions - left)
        invariant Abs().counter == old(Abs()).counter
        decreases left
      {
        var n :| n in left;
        ghost var walked := transactions - left;
        left := left - {n};
        if n <= account.value {
          transactions := transactions - {n};
          assert transactions - left == walked;
          continue;
        }
        assert transactions - left == walked[n := transactions[n]];
        resent, order := resent + [transactions[n]], order + [n];
      }
      assert transactions - left == transactions == Above(cache, account.value);
    }

    method IsTxAlreadySent(tx: Tx) returns (sent: bool)
      ensures sent <==> SentBefore(transactions, tx.payload)
    {
      var left := transactions.Keys;
      while left != {}
        invariant left <= transactions.Keys
        invariant forall n :: n in transactions && n !in left ==> transactions[n].payload != tx.payload
        decreases left
      {
        var n :| n in left;
        if transactions[n].payload == tx.payload { return true; }
        left := left - {n};
      }
      return false;
    }

    /** The proxy's answer to the transaction is passed on and changes nothing here. */
    method SendTransaction(tx: Tx, checkForDuplicates: bool) returns (sent: bool)
      modifies this
      ensures sent <==> !(checkForDuplicates && SentBefore(old(transactions), tx.payload))
      ensures Abs() == Submit(old(Abs()), tx, checkForDuplicates)
      ensures sent ==> tx.nonce in transactions && transactions[tx.nonce] == tx && SentBefore(transactions, tx.payload)
      ensures forall n :: n != tx.nonce || !sent ==>
        && (n in transactions <==> n in old(transactions))
        && (n in transactions ==> transactions[n] == old(transactions)[n])
    {
      if checkForDuplicates {
        var already := IsTxAlreadySent(tx);
        if already {
          DecrementComputedNonce();
          return false;
        }
      }
      transactions := transactions[tx.nonce := tx];
      assert transactions[tx.nonce].payload == tx.payload;
      return true;
    }

    method DecrementComputedNonce()
      modifies this
      ensures Abs() == Decremented(old(Abs()))
      ensures computedNonce == if old(computedNonce) == 0 then 0 else old(computedNonce) - 1
    {
      if computedNonce > 0 { computedNonce := computedNonce - 1; }
    }

    method MarkReFetchNonce()
      modifies this
      ensures transactions == old(transactions) && Abs().counter == Counter(false, old(computedNonce))
      ensures forall accounts :: Nonces(Abs().counter, accounts) == Nonces(Counter(false, 0), accounts)
    {
      computedNonceWasSet := false;
      forall accounts ensures Nonces(Abs().counter, accounts) == Nonces(Counter(false, 0), accounts) {
        UnsetIsNew(Abs().counter, accounts);
      }
    }
  }

  /** The sweep keeps all above the account nonce exactly when, on the shortcut, nothing is cached above the counter. */
  lemma SweepKeepsAbove(h: HandlerV1, account: uint64)
    ensures SweptCache(h, account) == Above(h.transactions, account) <==>
            (account == h.counter.computed ==> forall n :: n in h.transactions ==> n <= account)
  {
    var above := Above(h.transactions, account);
    if account == h.counter.computed && above == map[] {
      forall n | n in h.transactions ensures n <= account { assert n !in above; }
    }
  }

  /** Exactly when the V1 sweep leaves what the chain has not executed. */
  lemma SweepKeepsUnexecuted(h: HandlerV1, account: uint64)
    ensures SweptCache(h, account) == Unexecuted(h.transactions, account) <==>
            && account !in h.transactions
            && (account == h.counter.computed ==> forall n :: n in h.transactions ==> n < account)
    ensures account !in SweptCache(h, account)
  {
    KeepsUnexecutedIff(h.transactions, h.counter.computed, account, SweptCache(h, account));
  }

  // ---------- runs ----------

  datatype Event = TakeNonce(account: uint64) | SendTx(tx: Tx) | Sweep(account: uint64) | ReFetch

  const NEW_V1 := HandlerV1(Counter(false, 0), map[])

  /** With the check for duplicates switched on. */
  ghost function After(h: HandlerV1, e: Event): HandlerV1 {
    match e
    case TakeNonce(account) => h.(counter := Step(h.counter, account).0)
    case SendTx(tx) => Submit(h, tx, true)
    case Sweep(account) => h.(transactions := SweptCache(h, account))
    case ReFetch => h.(counter := h.counter.(wasSet := false))
  }

  ghost function Exec(h: HandlerV1, run: seq<Event>): HandlerV1 {
    if run == [] then h else After(Exec(h, run[..|run| - 1]), run[|run| - 1])
  }

  /**
   The account nonce does not overtake the counter, what is sent carries a nonce already taken and is no duplicate, and
   a re-fetch is forced only with nothing cached.
   */
  ghost predicate Steady(h: HandlerV1, e: Event) {
    match e
    case TakeNonce(account) =>
      h.counter.wasSet ==> account <= h.counter.computed as int + 1 && h.counter.computed < MAX_UINT64
    case SendTx(tx) => h.counter.wasSet && tx.nonce <= h.counter.computed && !SentBefore(h.transactions, tx.payload)
    case Sweep(_) => true
    case ReFetch => h.transactions == map[]
  }

  ghost predicate SteadyRun(run: seq<Event>) {
    forall i :: 0 <= i < |run| ==> Steady(Exec(NEW_V1, run[..i]), run[i])
  }

  /** Nothing is cached above the counter, nor before it is set. */
  ghost predicate CachedBelow(h: HandlerV1) {
    forall n :: n in h.transactions ==> h.counter.wasSet && n <= h.counter.computed
  }

  lemma SteadyKeepsBelow(h: HandlerV1, e: Event)
    requires CachedBelow(h) && Steady(h, e)
    ensures CachedBelow(After(h, e))
  {
  }

  /**
   After every steady run, every sweep keeps exactly the cached transactions above its account nonce; these are all the
   unexecuted ones if and only if none is cached under the account nonce itself.
   */
  lemma {:induction false} SteadyRunsKeepAbove(run: seq<Event>, account: uint64)
    requires SteadyRun(run)
    ensures var h := Exec(NEW_V1, run);
      && CachedBelow(h)
      && SweptCache(h, account) == Above(h.transactions, account)
      && (SweptCache(h, account) == Unexecuted(h.transactions, account) <==> account !in h.transactions)
  {
    if run != [] {
      var init := run[..|run| - 1];
      forall i | 0 <= i < |init| ensures Steady(Exec(NEW_V1, init[..i]), init[i]) {
        assert init[..i] == run[..i];
      }
      SteadyRunsKeepAbove(init, account);
      SteadyKeepsBelow(Exec(NEW_V1, init), run[|run| - 1]);
    }
    SweepKeepsAbove(Exec(NEW_V1, run), account);
    SweepKeepsUnexecuted(Exec(NEW_V1, run), account);
  }

  /**
   A steady run is enough to lose one: nonce 5 is taken and sent, and a sweep that still finds the account nonce 5
   forgets it, although it is the transaction the chain waits for.
   */
  lemma SweepForgetsNextTransaction(tx5: Tx)
    requires tx5.nonce == 5
    ensures
      var run := [TakeNonce(5), SendTx(tx5)];
      var h := Exec(NEW_V1, run);
      SteadyRun(run) && Unexecuted(h.transactions, 5) == map[5 := tx5] && SweptCache(h, 5) == map[]
  {
    var run := [TakeNonce(5), SendTx(tx5)];
    ExecNext(NEW_V1, run, 0);
    ExecNext(NEW_V1, run, 1);
    assert run[..0] == [] && run[..2] == run;
    assert !SentBefore(map[], tx5.payload);
    assert Exec(NEW_V1, run) == HandlerV1(Counter(true, 5), map[5 := tx5]);
  }

  /**
   A rejected duplicate breaks it: nonces 5 and 6 are taken and sent, the first transaction is sent once more and
   rejected, and the counter is back at 5; a sweep at account nonce 5 then forgets 6 as well.
   */
  lemma DuplicateMakesSweepForget(tx5: Tx, tx6: Tx)
    requires tx5.nonce == 5 && tx6.nonce == 6 && tx5.payload != tx6.payload
    ensures
      var h := Exec(NEW_V1, [TakeNonce(5), SendTx(tx5), TakeNonce(5), SendTx(tx6), SendTx(tx5)]);
      && h == HandlerV1(Counter(true, 5), map[5 := tx5, 6 := tx6])
      && SweptCache(h, 5) == map[] && 6 in Above(h.transactions, 5)
  {
    var run := [TakeNonce(5), SendTx(tx5), TakeNonce(5), SendTx(tx6), SendTx(tx5)];
    ExecNext(NEW_V1, run, 0);
    ExecNext(NEW_V1, run, 1);
    ExecNext(NEW_V1, run, 2);
    ExecNext(NEW_V1, run, 3);
    ExecNext(NEW_V1, run, 4);
    var h3 := HandlerV1(Counter(true, 6), map[5 := tx5]);
    assert Exec(NEW_V1, run[..3]) == h3;
    assert !SentBefore(h3.transactions, tx6.payload);
    assert After(h3, SendTx(tx6)).transactions[5].payload == tx5.payload;
    assert run[..5] == run;
  }

  lemma ExecNext(h: HandlerV1, run: seq<Event>, i: nat)
    requires i < |run|
    ensures Exec(h, run[..i + 1]) == After(Exec(h, run[..i]), run[i])
  {
    assert run[..i + 1][..i] == run[..i];
  }
}
