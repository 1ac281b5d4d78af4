/**
 The V2 address nonce handler: a nonce allocator against a moving chain nonce, with a cache of sent transactions, a
 resend sweep and a mode that outbids dropped transactions. Answers of the proxy are parameters; None is a failure.
 */
module NonceHandlerV2 {
  import opened GoTypes
  import opened NonceCounter

  datatype Tx = Tx(nonce: uint64, gasPrice: uint64, payload: Bytes)

  datatype Error = ProxyFailure | GapNonce | AlreadySent

  type Cache = map<uint64, Tx>

  datatype Handler = Handler(
    counter: Counter,
    lowestNonce: uint64,
    gasPrice: uint64,
    nonceUntilGasIncreased: uint64,
    transactions: Cache)

  const NEW := Handler(Counter(false, 0), 0, 0, 0, map[])

  // ---------- what each operation does ----------

  /** handleTxWithSameNonce: a cached transaction with the given nonce may be replaced only by a better paid one. */
  predicate MayReplace(h: Handler, tx: Tx) {
    tx.nonce in h.transactions ==>
      var cached := h.transactions[tx.nonce];
      cached.gasPrice < tx.gasPrice || (cached.gasPrice == tx.gasPrice && cached.gasPrice < h.gasPrice)
  }

  function GetNonce(h: Handler, account: Option<uint64>): (Handler, Result<uint64, Error>) {
    if account.None? then (h, Err(ProxyFailure))
    else if h.lowestNonce > account.value then (h, Err(GapNonce))
    else
      var (counter, nonce) := Step(h.counter, account.value);
      (h.(counter := counter), Ok(nonce))
  }

  function FetchGasPrice(h: Handler, nonce: uint64, network: Option<uint64>): Handler {
    if nonce == WrapUint64(h.nonceUntilGasIncreased as int + 1) || h.gasPrice == 0
    then h.(gasPrice := if network.Some? then network.value else 0)
    else h
  }

  /** ApplyNonceAndGasPrice: the handler, the transaction and the error after the call. */
  function Apply(h: Handler, tx: Tx, account: Option<uint64>, network: Option<uint64>): (Handler, Tx, Option<Error>) {
    if !MayReplace(h, tx) then (h, tx, Some(AlreadySent))
    else
      var (h1, nonce) := GetNonce(h, account);
      match nonce
      case Err(e) => (h1, tx.(nonce := if account.Some? then account.value else 0), Some(e))
      case Ok(n) =>
        var h2 := FetchGasPrice(h1, n, network);
        (h2, tx.(nonce := n, gasPrice := Max(h2.gasPrice, tx.gasPrice)), None)
  }

  /**
   A call allowed to reuse a cached nonce pays strictly more than the cached transaction, unless its new nonce is the
   one at which the network's price is fetched again.
   */
  lemma ReplacementPaysMore(h: Handler, tx: Tx, account: Option<uint64>, network: Option<uint64>)
    requires tx.nonce in h.transactions
    ensures var (_, tx', err) := Apply(h, tx, account, network);
      && (err == Some(AlreadySent) ==> tx' == tx && tx.gasPrice <= h.transactions[tx.nonce].gasPrice)
      && (err.None? && tx'.nonce != WrapUint64(h.nonceUntilGasIncreased as int + 1) ==>
            tx'.gasPrice > h.transactions[tx.nonce].gasPrice)
  {
  }

  /** The cached transactions whose nonce is above the account nonce. */
  function Above(cache: Cache, account: uint64): Cache {
    map n | n in cache && n > account :: cache[n]
  }

  /** The account nonce is the next one the chain executes, so these are the cached transactions not executed yet. */
  function Unexecuted(cache: Cache, account: uint64): Cache {
    map n | n in cache && n >= account :: cache[n]
  }

  ghost predicate IsLowest(lowest: uint64, cache: Cache, computed: uint64) {
    && lowest <= computed && (forall n :: n in cache ==> lowest <= n)
    && (lowest == computed || lowest in cache)
  }

  function Send(h: Handler, tx: Tx): Handler {
    h.(transactions := h.transactions[tx.nonce := tx])
  }

  function Drop(h: Handler): Handler {
    h.(counter := h.counter.(wasSet := false),
       gasPrice := WrapUint64(h.gasPrice as int + 1),
       nonceUntilGasIncreased := h.counter.computed,
       transactions := map[])
  }

  /** The sweep's result without the shortcut: keep and resend what is above the account nonce. */
  ghost predicate SweptInFull(h: Handler, account: uint64, h': Handler, resent: Cache) {
    && resent == Above(h.transactions, account)
    && IsLowest(h'.lowestNonce, resent, h.counter.computed)
    && h' == h.(transactions := resent, lowestNonce := h'.lowestNonce)
  }

  /** The sweep's result on the shortcut taken when the account nonce equals the counter. */
  ghost predicate SweptShort(h: Handler, h': Handler, resent: Cache) {
    h' == h.(transactions := map[], lowestNonce := h.counter.computed) && resent == map[]
  }

  ghost predicate Swept(h: Handler, account: uint64, h': Handler, resent: Cache) {
    if account == h.counter.computed then SweptShort(h, h', resent) else SweptInFull(h, account, h', resent)
  }

  lemma {:induction false} LowestExists(cache: Cache, computed: uint64)
    ensures exists lowest :: IsLowest(lowest, cache, computed)
    decreases |cache|
  {
    if cache == map[] {
      assert IsLowest(computed, cache, computed);
    } else {
      var n :| n in cache;
      var rest := cache - {n};
      assert cache.Keys == rest.Keys + {n} && |rest| < |cache|;
      LowestExists(rest, computed);
      var lowest :| IsLowest(lowest, rest, computed);
      assert IsLowest(Min(n, lowest), cache, computed);
    }
  }

  /** The handler after a sweep, shortcut or full. */
  ghost function SweepResult(h: Handler, account: uint64): Handler {
    if account == h.counter.computed then h.(transactions := map[], lowestNonce := h.counter.computed)
    else
      var kept := Above(h.transactions, account);
      LowestExists(kept, h.counter.computed);
      var lowest :| IsLowest(lowest, kept, h.counter.computed);
      h.(transactions := kept, lowestNonce := lowest)
  }

  /** There is one result of a sweep, and it is that one. */
  lemma SweepResultIsSwept(h: Handler, account: uint64)
    ensures var h' := SweepResult(h, account); Swept(h, account, h', h'.transactions)
    ensures forall h', resent :: Swept(h, account, h', resent) ==> h' == SweepResult(h, account)
  {
  }

  /** The shortcut is the full sweep exactly when nothing cached is above the counter. */
  lemma ShortcutAgrees(h: Handler, h': Handler, resent: Cache)
    requires SweptShort(h, h', resent)
    ensures SweptInFull(h, h.counter.computed, h', resent) <==>
            forall n :: n in h.transactions ==> n <= h.counter.computed
  {
    var above := Above(h.transactions, h.counter.computed);
    if SweptInFull(h, h.counter.computed, h', resent) {
      forall n | n in h.transactions ensures n <= h.counter.computed { assert n !in above; }
    }
    if forall n :: n in h.transactions ==> n <= h.counter.computed {
      assert above == map[];
    }
  }

  /**
   What the sweep leaves is exactly what the chain has not executed if and only if nothing is cached under the account
   nonce itself, nor above it on the shortcut. A full sweep forgets the transaction at the account nonce, the one that
   the chain waits for, and no other; the shortcut forgets all that are not executed.
   */
  lemma KeepsUnexecutedIff(cache: Cache, computed: uint64, account: uint64, kept: Cache)
    requires kept == if account == computed then map[] else Above(cache, account)
    ensures kept == Unexecuted(cache, account) <==>
            account !in cache && (account == computed ==> forall n :: n in cache ==> n < account)
    ensures account != computed ==>
      Unexecuted(cache, account).Keys - kept.Keys == (set n | n in cache && n == account)
    ensures account !in kept
  {
    var unexecuted := Unexecuted(cache, account);
    if kept == unexecuted {
      forall n | n in cache && n >= account ensures n in kept { assert n in unexecuted; }
    } else if account == computed {
      var n :| n in unexecuted;
      assert n in cache && n >= account;
    } else {
      assert account !in cache ==> kept == unexecuted;
    }
  }

  /** Exactly when the V2 sweep does. */
  lemma SweepKeepsUnexecutedIff(h: Handler, account: uint64)
    ensures SweepResult(h, account).transactions == Unexecuted(h.transactions, account) <==>
            && account !in h.transactions
            && (account == h.counter.computed ==> forall n :: n in h.transactions ==> n < account)
    ensures account !in SweepResult(h, account).transactions
  {
    KeepsUnexecutedIff(h.transactions, h.counter.computed, account, SweepResult(h, account).transactions);
  }

  /** `txs` lists the transactions of the cache, each once, in the order given by their nonces in `order`. */
  ghost predicate Lists(order: seq<uint64>, txs: seq<Tx>, cache: Cache) {
    && |order| == |txs| && (forall i, j :: 0 <= i < j < |order| ==> order[i] != order[j])
    && (forall n :: n in order <==> n in cache)
    && (forall i :: 0 <= i < |txs| ==> order[i] in cache && txs[i] == cache[order[i]])
  }

  // ---------- the handler, updated in place ----------

  class AddressNonceHandler {
    var computedNonceWasSet: bool
    var computedNonce: uint64
    var lowestNonce: uint64
    var gasPrice: uint64
    var nonceUntilGasIncreased: uint64
    var transactions: Cache

    function Abs(): Handler
      reads this
    {
      Handler(Counter(computedNonceWasSet, computedNonce), lowestNonce, gasPrice, nonceUntilGasIncreased, transactions)
    }

    constructor ()
      ensures Abs() == NEW
    {
      computedNonceWasSet, computedNonce, lowestNonce, gasPrice, nonceUntilGasIncreased := false, 0, 0, 0, 0;
      transactions := map[];
    }

    method GetNonceUpdatingCurrent(account: Option<uint64>) returns (nonce: Result<uint64, Error>)
      modifies this
      ensures (Abs(), nonce) == GetNonce(old(Abs()), account)
      ensures nonce.Ok? <==> account.Some? && old(lowestNonce) <= account.value
      ensures nonce.Ok? ==> (Abs().counter, nonce.value) == Step(old(Abs()).counter, account.value)
      ensures nonce.Err? ==> nonce.error == (if account.None? then ProxyFailure else GapNonce) && Abs() == old(Abs())
      ensures Abs() == old(Abs()).(counter := Abs().counter)
    {
      if account.None? { return Err(ProxyFailure); }
      if lowestNonce > account.value { return Err(GapNonce); }
      if !computedNonceWasSet {
        computedNonce, computedNonceWasSet := account.value, true;
        return Ok(computedNonce);
      }
      computedNonce := WrapUint64(computedNonce as int + 1);
      return Ok(Max(computedNonce, account.value));
    }

    method FetchGasPriceIfRequired(nonce: uint64, network: Option<uint64>)
      modifies this
      ensures Abs() == FetchGasPrice(old(Abs()), nonce, network)
      ensures Abs() == old(Abs()).(gasPrice := gasPrice)
      ensures nonce == (old(nonceUntilGasIncreased) as int + 1) % TWO_64 || old(gasPrice) == 0 ==>
        gasPrice == if network.Some? then network.value else 0
      ensures nonce != (old(nonceUntilGasIncreased) as int + 1) % TWO_64 && old(gasPrice) != 0 ==>
        gasPrice == old(gasPrice)
    {
      if nonce == WrapUint64(nonceUntilGasIncreased as int + 1) || gasPrice == 0 {
        if network.None? {
          gasPrice := 0;
          return;
        }
        gasPrice := network.value;
      }
    }

    method ApplyNonceAndGasPrice(tx: Tx, account: Option<uint64>, network: Option<uint64>)
      returns (tx': Tx, err: Option<Error>)
      modifies this
      ensures (Abs(), tx', err) == Apply(old(Abs()), tx, account, network)
      ensures err == Some(AlreadySent) <==>
        && tx.nonce in old(transactions)
        && var cached := old(transactions)[tx.nonce];
           tx.gasPrice < cached.gasPrice || (tx.gasPrice == cached.gasPrice && old(gasPrice) <= cached.gasPrice)
      ensures err == Some(AlreadySent) ==> tx' == tx && Abs() == old(Abs())
      ensures err.Some? && err != Some(AlreadySent) ==>
        && tx' == tx.(nonce := if account.Some? then account.value else 0) && Abs() == old(Abs())
        && err == Some(if account.None? then ProxyFailure else GapNonce)
      ensures err.None? ==>
        && tx'.payload == tx.payload && tx'.gasPrice >= tx.gasPrice && tx'.gasPrice >= gasPrice
        && (tx'.gasPrice == tx.gasPrice || tx'.gasPrice == gasPrice)
        && Some(tx'.nonce) == (if account.Some? then Some(Step(old(Abs()).counter, account.value).1) else None)
    {
      tx' := tx;
      if tx.nonce in transactions {
        var cached := transactions[tx.nonce];
        if !(cached.gasPrice < tx.gasPrice || (cached.gasPrice == tx.gasPrice && cached.gasPrice < gasPrice)) {
          return tx', Some(AlreadySent);
        }
      }
      var nonce := GetNonceUpdatingCurrent(account);
      match nonce {
        case Err(e) =>
          tx' := tx'.(nonce := if account.Some? then account.value else 0);
          return tx', Some(e);
        case Ok(n) =>
          tx' := tx'.(nonce := n);
          FetchGasPriceIfRequired(n, network);
          tx' := tx'.(gasPrice := Max(gasPrice, tx'.gasPrice));
          return tx', None;
      }
    }

    /** The sweep's loop: it deletes while it walks the map, in any order; `order` lists what it kept. */
    method KeepAbove(account: uint64) returns (minNonce: uint64, resent: seq<Tx>, ghost order: seq<uint64>)
      modifies this`transactions
      ensures transactions == Above(old(transactions), account) && IsLowest(minNonce, transactions, computedNonce)
      ensures Lists(order, resent, transactions)
    {
      resent, order := [], [];
      minNonce := computedNonce;
      var left := transactions.Keys;
      ghost var cache := transactions;
      while left != {}
        invariant left <= transactions.Keys <= cache.Keys
        invariant forall n :: n in cache ==> (n in transactions <==> n in left || n > account)
        invariant forall n :: n in transactions ==> transactions[n] == cache[n]
        invariant Lists(order, resent, transactions - left)
        invariant IsLowest(minNonce, transactions - left, computedNonce)
        decreases left
      {
        var n :| n in left;
        ghost var walked := transactions - left;
        left := left - {n};
        if n <= account {
          transactions := transactions - {n};
          assert transactions - left == walked;
          continue;
        }
        assert transactions - left == walked[n := transactions[n]];
        minNonce := Min(n, minNonce);
        resent, order := resent + [transactions[n]], order + [n];
      }
      assert transactions - left == transactions == Above(cache, account);
    }

    method ReSendTransactionsIfRequired(account: Option<uint64>) returns (resent: seq<Tx>, ghost order: seq<uint64>)
      modifies this
      ensures account.None? ==> Abs() == old(Abs()) && resent == []
      ensures account.Some? ==> Swept(old(Abs()), account.value, Abs(), transactions)
      ensures account.Some? ==> Lists(order, resent, transactions)
      ensures account.Some? ==> forall n ::
        && (n in transactions <==> n in old(transactions) && account.value < n && account.value != computedNonce)
        && (n in transactions ==> transactions[n] == old(transactions)[n])
      ensures Abs() == old(Abs()).(transactions := transactions, lowestNonce := lowestNonce)
    {
      resent, order := [], [];
      if account.None? { return; }
      if account.value == computedNonce {
        lowestNonce, transactions := computedNonce, map[];
        return;
      }
      var minNonce;
      minNonce, resent, order := KeepAbove(account.value);
      lowestNonce := minNonce;
    }

    method SendTransaction(tx: Tx)
      modifies this
      ensures Abs() == Send(old(Abs()), tx) == old(Abs()).(transactions := transactions)
      ensures tx.nonce in transactions && transactions[tx.nonce] == tx
      ensures forall n :: n != tx.nonce ==>
        && (n in transactions <==> n in old(transactions))
        && (n in transactions ==> transactions[n] == old(transactions)[n])
    {
      transactions := transactions[tx.nonce := tx];
    }

    method DropTransactions()
      modifies this
      ensures Abs() == Drop(old(Abs()))
      ensures transactions == map[] && lowestNonce == old(lowestNonce)
      ensures nonceUntilGasIncreased == old(computedNonce) && gasPrice == (old(gasPrice) as int + 1) % TWO_64
      ensures computedNonce == old(computedNonce)
      ensures forall accounts :: Nonces(Abs().counter, accounts) == Nonces(Counter(false, 0), accounts)
    {
      transactions, computedNonceWasSet := map[], false;
      gasPrice := WrapUint64(gasPrice as int + 1);
      nonceUntilGasIncreased := computedNonce;
      forall accounts ensures Nonces(Abs().counter, accounts) == Nonces(Counter(false, 0), accounts) {
        UnsetIsNew(Abs().counter, accounts);
      }
    }
  }
}
