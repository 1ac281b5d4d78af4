/**
 The V2 handler under concurrent callers and its resend goroutine. An account nonce is fetched before the lock is taken,
 so a section may run with any account nonce fetched earlier; and a call takes its nonce, checks whether the price must
 be fetched again, stores the fetched price and reads the price in separate steps. A run is any interleaving of these.
 The checks for a duplicate and for a gap that a call passes before it takes its nonce are no events: they change
 nothing, and what holds of all runs holds of those in which they are passed. The runs that show a failure pass them.
 */
module NonceSectionsV2 {
  import opened GoTypes
  import opened NonceCounter
  import opened NonceHandlerV2

  /** Where a call stands after it took its nonce. */
  datatype Call =
    | Numbered(tx: Tx, nonce: uint64)
    | Refetching(tx: Tx, nonce: uint64)
    | Ready(tx: Tx, nonce: uint64)

  /** A price stored by the call that carries the nonce. */
  datatype Stored = Stored(nonce: uint64, price: uint64)

  /**
   The handler; the chain's account nonce and all account nonces fetched so far; since the last drop, the nonces handed
   out, the largest account nonce one was taken with and the prices stored; and the calls under way.
   */
  datatype World = World(
    h: Handler,
    chain: uint64,
    fetched: set<uint64>,
    handed: set<uint64>,
    used: uint64,
    stored: seq<Stored>,
    calls: map<nat, Call>)

  const START := World(NEW, 0, {}, {}, 0, [], map[])

  datatype Event =
    | Fetch(account: uint64)
    | TakeNonce(caller: nat, tx: Tx, account: uint64)
    | CheckPrice(caller: nat)
    | StorePrice(caller: nat, network: Option<uint64>)
    | ReadPrice(caller: nat)
    | SendTx(tx: Tx)
    | Sweep(account: uint64)
    | DropAll

  /** The chain nonce does not decrease, the counter does not wrap, only nonces handed out since the drop are sent. */
  ghost predicate Enabled(w: World, e: Event) {
    match e
    case Fetch(account) => w.chain <= account
    case TakeNonce(caller, _, account) =>
      caller !in w.calls && account in w.fetched && w.h.counter.computed < MAX_UINT64
    case CheckPrice(caller) => caller in w.calls && w.calls[caller].Numbered?
    case StorePrice(caller, _) => caller in w.calls && w.calls[caller].Refetching?
    case ReadPrice(caller) => caller in w.calls && w.calls[caller].Ready?
    case SendTx(tx) => tx.nonce in w.handed
    case Sweep(account) => account in w.fetched
    case DropAll => true
  }

  /** The guard of fetchGasPriceIfRequired. */
  predicate MustRefetch(h: Handler, nonce: uint64) {
    nonce == WrapUint64(h.nonceUntilGasIncreased as int + 1) || h.gasPrice == 0
  }

  ghost function After(w: World, e: Event): World
    requires Enabled(w, e)
  {
    match e
    case Fetch(account) => w.(chain := account, fetched := w.fetched + {account})
    case TakeNonce(caller, tx, account) =>
      var (counter, nonce) := Step(w.h.counter, account);
      w.(h := w.h.(counter := counter), handed := w.handed + {nonce}, used := Max(w.used, account),
         calls := w.calls[caller := Numbered(tx, nonce)])
    case CheckPrice(caller) =>
      var call := w.calls[caller];
      w.(calls := w.calls[caller := if MustRefetch(w.h, call.nonce) then Refetching(call.tx, call.nonce)
                                    else Ready(call.tx, call.nonce)])
    case StorePrice(caller, network) =>
      var call := w.calls[caller];
      var price := if network.Some? then network.value else 0;
      w.(h := w.h.(gasPrice := price), stored := w.stored + [Stored(call.nonce, price)],
         calls := w.calls[caller := Ready(call.tx, call.nonce)])
    case ReadPrice(caller) => w.(calls := w.calls - {caller})
    case SendTx(tx) => w.(h := Send(w.h, tx))
    case Sweep(account) => w.(h := SweepResult(w.h, account))
    case DropAll => w.(h := Drop(w.h), handed := {}, used := 0, stored := [])
  }

  /** The price a call leaves with when it reads the handler's price now. */
  function Paid(w: World, caller: nat): uint64
    requires caller in w.calls
  {
    Max(w.h.gasPrice, w.calls[caller].tx.gasPrice)
  }

  /** The world after a run, or None where some event of it was not enabled. */
  ghost function Exec(w: World, run: seq<Event>): Option<World>
    decreases |run|
  {
    if run == [] then Some(w)
    else if Enabled(w, run[0]) then Exec(After(w, run[0]), run[1..])
    else None
  }

  /** A call that takes a nonce passes both checks at that very moment. */
  predicate PassesChecks(w: World, e: Event) {
    e.TakeNonce? ==> MayReplace(w.h, e.tx) && w.h.lowestNonce <= e.account
  }

  ghost predicate Checked(w: World, run: seq<Event>)
    decreases |run|
  {
    run == [] || (Enabled(w, run[0]) && PassesChecks(w, run[0]) && Checked(After(w, run[0]), run[1..]))
  }

  lemma ExecFirst(w: World, e: Event, rest: seq<Event>)
    requires Enabled(w, e)
    ensures Exec(w, [e] + rest) == Exec(After(w, e), rest)
    ensures Checked(w, [e] + rest) <==> PassesChecks(w, e) && Checked(After(w, e), rest)
  {
    assert ([e] + rest)[1..] == rest;
  }

  lemma {:induction false} ExecAppend(w: World, a: seq<Event>, b: seq<Event>)
    requires Exec(w, a).Some?
    ensures Exec(w, a + b) == Exec(Exec(w, a).value, b)
    ensures Checked(w, a + b) <==> Checked(w, a) && Checked(Exec(w, a).value, b)
    decreases |a|
  {
    if a == [] {
      assert a + b == b;
    } else {
      assert (a + b)[1..] == a[1..] + b;
      ExecAppend(After(w, a[0]), a[1..], b);
    }
  }

  /** The steps of one call, with nobody in between, are the call as a whole. */
  lemma SectionsAreTheCall(w: World, caller: nat, tx: Tx, account: uint64, network: Option<uint64>)
    requires Enabled(w, TakeNonce(caller, tx, account)) && PassesChecks(w, TakeNonce(caller, tx, account))
    ensures
      var w1 := After(w, TakeNonce(caller, tx, account));
      var w2 := After(w1, CheckPrice(caller));
      var w3 := if w2.calls[caller].Refetching? then After(w2, StorePrice(caller, network)) else w2;
      var (h, tx', err) := Apply(w.h, tx, Some(account), network);
      && Enabled(w3, ReadPrice(caller)) && err.None? && After(w3, ReadPrice(caller)).h == h
      && w3.calls[caller].nonce == tx'.nonce && Paid(w3, caller) == tx'.gasPrice
  {
  }

  // ---------- the sweep ----------

  /** No handed-out nonce exceeds the counter: each was taken with an account nonce that did not overtake it. */
  ghost predicate KeepsPace(w: World, e: Event) {
    e.TakeNonce? && w.h.counter.wasSet ==> e.account <= w.h.counter.computed + 1
  }

  ghost predicate PacedRun(w: World, run: seq<Event>)
    decreases |run|
  {
    run == [] || (Enabled(w, run[0]) && KeepsPace(w, run[0]) && PacedRun(After(w, run[0]), run[1..]))
  }

  ghost predicate CachedWereHanded(w: World) {
    w.h.transactions.Keys <= w.handed && (!w.h.counter.wasSet ==> w.handed == {})
  }

  ghost predicate Paced(w: World) {
    CachedWereHanded(w) && forall n :: n in w.handed ==> n <= w.h.counter.computed
  }

  ghost predicate Bounded(w: World) {
    && CachedWereHanded(w)
    && (forall n :: n in w.handed ==> n <= Max(w.h.counter.computed, w.used))
    && (forall a :: a in w.fetched ==> a <= w.chain) && w.used <= w.chain
  }

  lemma SweepKeepsCounter(w: World, account: uint64)
    requires CachedWereHanded(w)
    ensures var h := SweepResult(w.h, account);
      h.counter == w.h.counter && h.transactions.Keys <= w.handed
      && h.gasPrice == w.h.gasPrice && h.nonceUntilGasIncreased == w.h.nonceUntilGasIncreased
  {
  }

  lemma EventKeepsPaced(w: World, e: Event)
    requires Paced(w) && Enabled(w, e) && KeepsPace(w, e)
    ensures Paced(After(w, e))
  {
    if e.Sweep? { SweepKeepsCounter(w, e.account); }
  }

  lemma EventKeepsBounded(w: World, e: Event)
    requires Bounded(w) && Enabled(w, e)
    ensures Bounded(After(w, e))
  {
    if e.Sweep? { SweepKeepsCounter(w, e.account); }
  }

  lemma {:induction false} RunKeepsPaced(w: World, run: seq<Event>)
    requires Paced(w) && PacedRun(w, run)
    ensures Exec(w, run).Some? && Paced(Exec(w, run).value)
    decreases |run|
  {
    if run != [] {
      EventKeepsPaced(w, run[0]);
      RunKeepsPaced(After(w, run[0]), run[1..]);
    }
  }

  lemma {:induction false} RunKeepsBounded(w: World, run: seq<Event>)
    requires Bounded(w) && Exec(w, run).Some?
    ensures Bounded(Exec(w, run).value)
    decreases |run|
  {
    if run != [] {
      EventKeepsBounded(w, run[0]);
      RunKeepsBounded(After(w, run[0]), run[1..]);
    }
  }

  ghost predicate SweepIsFull(h: Handler, account: uint64) {
    var h' := SweepResult(h, account);
    SweptInFull(h, account, h', h'.transactions)
  }

  /** In any state a sweep is full if and only if it does not take the shortcut past something cached. */
  lemma SweepIsFullIff(h: Handler, account: uint64)
    ensures SweepIsFull(h, account) <==>
            account != h.counter.computed || forall n :: n in h.transactions ==> n <= account
  {
    SweepResultIsSwept(h, account);
    var h' := SweepResult(h, account);
    if account == h.counter.computed { ShortcutAgrees(h, h', h'.transactions); }
  }

  /**
   In every run in which the account nonces never overtake the counter, every sweep is full, with whatever account
   nonce fetched at whatever time; it leaves exactly the unexecuted transactions if and only if none is cached under
   the account nonce itself.
   */
  lemma EverySweepIsFull(run: seq<Event>, account: uint64)
    requires PacedRun(START, run)
    ensures Exec(START, run).Some? && SweepIsFull(Exec(START, run).value.h, account)
    ensures var h := Exec(START, run).value.h;
      SweepResult(h, account).transactions == Unexecuted(h.transactions, account) <==> account !in h.transactions
  {
    RunKeepsPaced(START, run);
    SweepIsFullIff(Exec(START, run).value.h, account);
    SweepKeepsUnexecutedIff(Exec(START, run).value.h, account);
  }

  /**
   In every run whatsoever a sweep is full if its account nonce is at least every one that a nonce was taken with
   since the last drop; in particular if it is the chain's current one.
   */
  lemma FreshSweepIsFull(run: seq<Event>, account: uint64)
    requires Exec(START, run).Some? && Exec(START, run).value.used <= account
    ensures SweepIsFull(Exec(START, run).value.h, account)
    ensures Exec(START, run).value.used <= Exec(START, run).value.chain
  {
    RunKeepsBounded(START, run);
    SweepIsFullIff(Exec(START, run).value.h, account);
  }

  /** One whole call, from a new handler: nonce 5 at the network's price 10. */
  function FirstRun(tx: Tx): seq<Event> {
    [Fetch(5)] + ([TakeNonce(0, tx, 5)] + ([CheckPrice(0)] + ([StorePrice(0, Some(10))] + ([ReadPrice(0)] + []))))
  }

  const SERVED := World(NEW.(counter := Counter(true, 5), gasPrice := 10), 5, {5}, {5}, 5, [Stored(5, 10)], map[])

  lemma FirstCall(tx: Tx)
    ensures Exec(START, FirstRun(tx)) == Some(SERVED) && Checked(START, FirstRun(tx))
  {
    var r4 := [ReadPrice(0)] + [];
    var r3 := [StorePrice(0, Some(10))] + r4;
    var r2 := [CheckPrice(0)] + r3;
    ExecFirst(START, Fetch(5), [TakeNonce(0, tx, 5)] + r2);
    var w1 := START.(chain := 5, fetched := {5});
    ExecFirst(w1, TakeNonce(0, tx, 5), r2);
    var w2 := w1.(h := NEW.(counter := Counter(true, 5)), handed := {5}, used := 5, calls := map[0 := Numbered(tx, 5)]);
    assert After(w1, TakeNonce(0, tx, 5)) == w2;
    ExecFirst(w2, CheckPrice(0), r3);
    var w3 := w2.(calls := map[0 := Refetching(tx, 5)]);
    assert After(w2, CheckPrice(0)) == w3;
    ExecFirst(w3, StorePrice(0, Some(10)), r4);
    var w4 := After(w3, StorePrice(0, Some(10)));
    ExecFirst(w4, ReadPrice(0), []);
    assert w4.stored == [Stored(5, 10)] && After(w4, ReadPrice(0)).calls == map[];
  }

  /** The transaction as its call leaves it, at price 10 or its own. */
  function Applied(tx: Tx, nonce: uint64): Tx {
    tx.(nonce := nonce, gasPrice := Max(10, tx.gasPrice))
  }

  /**
   Every sweep forgets the transaction the chain waits for: nonce 5 is taken and sent, and a sweep that still finds the
   account nonce 5 drops it, although account nonces keep pace and the sweep is full.
   */
  lemma SweepForgetsNextTransaction(tx: Tx)
    ensures
      var run := FirstRun(tx) + ([SendTx(Applied(tx, 5))] + []);
      && Exec(START, run).Some? && Checked(START, run)
      && var w := Exec(START, run).value;
         && Enabled(w, Sweep(5)) && SweepIsFull(w.h, 5)
         && Unexecuted(w.h.transactions, 5) == map[5 := Applied(tx, 5)] && SweepResult(w.h, 5).transactions == map[]
  {
    FirstCall(tx);
    ExecAppend(START, FirstRun(tx), [SendTx(Applied(tx, 5))] + []);
    ExecFirst(SERVED, SendTx(Applied(tx, 5)), []);
    SweepIsFullIff(Send(SERVED.h, Applied(tx, 5)), 5);
  }

  function StaleRun(tx: Tx): seq<Event> {
    [SendTx(Applied(tx, 5))] + ([Fetch(6)] + ([Fetch(9)] + LateCall(tx)))
  }

  function LateCall(tx: Tx): seq<Event> {
    [TakeNonce(1, tx, 9)] + ([CheckPrice(1)] + ([ReadPrice(1)] + ([SendTx(Applied(tx, 9))] + [])))
  }

  /**
   A stale sweep can forget more: nonce 5 is taken and sent, the sweep fetches 6, a call is served at 9 while the
   counter is at 6, and is sent; the sweep then sees 6, its counter, and clears the cache with 9 in it.
   */
  lemma StaleSweepForgets(tx: Tx)
    requires tx.nonce != 5
    ensures
      var run := FirstRun(tx) + StaleRun(tx);
      && Exec(START, run).Some? && Checked(START, run)
      && var w := Exec(START, run).value;
         && Enabled(w, Sweep(6)) && 9 in w.h.transactions && 9 !in SweepResult(w.h, 6).transactions
         && !SweepIsFull(w.h, 6)
  {
    FirstCall(tx);
    ExecAppend(START, FirstRun(tx), StaleRun(tx));
    ExecFirst(SERVED, SendTx(Applied(tx, 5)), [Fetch(6)] + ([Fetch(9)] + LateCall(tx)));
    var w1 := SERVED.(h := Send(SERVED.h, Applied(tx, 5)));
    ExecFirst(w1, Fetch(6), [Fetch(9)] + LateCall(tx));
    var w2 := w1.(chain := 6, fetched := {5} + {6});
    ExecFirst(w2, Fetch(9), LateCall(tx));
    StaleSweepEnds(tx, w2.(chain := 9, fetched := {5} + {6} + {9}));
  }

  lemma StaleSweepEnds(tx: Tx, w: World)
    requires w.fetched == {5, 6, 9} && w.calls == map[] && tx.nonce != 5
    requires w.h == SERVED.h.(transactions := map[5 := Applied(tx, 5)])
    ensures Exec(w, LateCall(tx)).Some? && Checked(w, LateCall(tx))
    ensures var w' := Exec(w, LateCall(tx)).value;
      && Enabled(w', Sweep(6)) && 9 in w'.h.transactions && 9 !in SweepResult(w'.h, 6).transactions
      && !SweepIsFull(w'.h, 6)
  {
    var r3 := [SendTx(Applied(tx, 9))] + [];
    var r2 := [ReadPrice(1)] + r3;
    ExecFirst(w, TakeNonce(1, tx, 9), [CheckPrice(1)] + r2);
    var w1 := After(w, TakeNonce(1, tx, 9));
    ExecFirst(w1, CheckPrice(1), r2);
    var w2 := After(w1, CheckPrice(1));
    ExecFirst(w2, ReadPrice(1), r3);
    var w3 := After(w2, ReadPrice(1));
    ExecFirst(w3, SendTx(Applied(tx, 9)), []);
    SweepIsFullIff(After(w3, SendTx(Applied(tx, 9))).h, 6);
  }

  // ---------- outbidding after a drop ----------

  ghost predicate NoDrops(run: seq<Event>) {
    forall i :: 0 <= i < |run| ==> !run[i].DropAll?
  }

  ghost predicate NoStores(run: seq<Event>) {
    forall i :: 0 <= i < |run| ==> !run[i].StorePrice?
  }

  function LastStored(w: World): Stored
    requires w.stored != []
  {
    w.stored[|w.stored| - 1]
  }

  /** The handler's price is the raised one until a call stores another, and then the last one stored. */
  ghost predicate PriceExplained(w: World, raised: uint64, bound: uint64) {
    && w.h.nonceUntilGasIncreased == bound
    && w.h.gasPrice == if w.stored == [] then raised else LastStored(w).price
  }

  lemma {:induction false} RunExplainsPrice(w: World, run: seq<Event>, raised: uint64, bound: uint64)
    requires PriceExplained(w, raised, bound) && Exec(w, run).Some? && NoDrops(run)
    ensures PriceExplained(Exec(w, run).value, raised, bound)
    ensures Exec(w, run).value.stored == [] <==> w.stored == [] && NoStores(run)
    decreases |run|
  {
    if run != [] {
      var w' := After(w, run[0]);
      assert PriceExplained(w', raised, bound) && (w'.stored == [] <==> w.stored == [] && !run[0].StorePrice?);
      RunExplainsPrice(w', run[1..], raised, bound);
      assert NoStores(run) <==> !run[0].StorePrice? && NoStores(run[1..]) by {
        if NoStores(run[1..]) && !run[0].StorePrice? {
          forall i | 0 <= i < |run| ensures !run[i].StorePrice? { if i > 0 { assert run[i] == run[1..][i - 1]; } }
        }
      }
    }
  }

  /**
   However the calls overlap between two drops, a call pays strictly more than the price before the first drop if and
   only if it offered more itself, or no call stored a fetched price before this one read the price and the raise did
   not wrap, or the last price stored is itself higher. Where none was stored it pays the raised price, or its own.
   */
  lemma PaysMoreIff(before: seq<Event>, run: seq<Event>, caller: nat)
    requires Exec(START, before).Some?
    requires NoDrops(run) && Exec(After(Exec(START, before).value, DropAll), run).Some?
    requires Enabled(Exec(After(Exec(START, before).value, DropAll), run).value, ReadPrice(caller))
    ensures
      var old_ := Exec(START, before).value.h.gasPrice;
      var w := Exec(After(Exec(START, before).value, DropAll), run).value;
      && (w.stored == [] <==> NoStores(run))
      && (Paid(w, caller) > old_ <==>
            || w.calls[caller].tx.gasPrice > old_
            || if NoStores(run) then old_ < MAX_UINT64 else LastStored(w).price > old_)
      && (NoStores(run) ==> Paid(w, caller) == Max(WrapUint64(old_ as int + 1), w.calls[caller].tx.gasPrice))
  {
    var w0 := Exec(START, before).value;
    var w1 := After(w0, DropAll);
    RunExplainsPrice(w1, run, WrapUint64(w0.h.gasPrice as int + 1), w0.h.counter.computed);
  }

  /** The nonces of the calls that are between their check and their store. */
  ghost function Fetching(w: World): set<uint64> {
    set c | c in w.calls && w.calls[c].Refetching? :: w.calls[c].nonce
  }

  /** Until a price is stored, only calls from before and calls with the first nonce past the bound are fetching one. */
  ghost predicate FirstFetchExplained(w: World, bound: uint64, earlier: set<uint64>) {
    && (w.stored == [] ==> forall c :: c in w.calls && w.calls[c].Refetching? ==>
          w.calls[c].nonce == WrapUint64(bound as int + 1) || w.calls[c].nonce in earlier)
    && (w.stored != [] ==> w.stored[0].nonce == WrapUint64(bound as int + 1) || w.stored[0].nonce in earlier)
  }

  lemma EventKeepsFirstFetch(w: World, e: Event, raised: uint64, bound: uint64, earlier: set<uint64>)
    requires PriceExplained(w, raised, bound) && 0 < raised && FirstFetchExplained(w, bound, earlier)
    requires Enabled(w, e) && !e.DropAll?
    ensures PriceExplained(After(w, e), raised, bound) && FirstFetchExplained(After(w, e), bound, earlier)
  {
  }

  lemma {:induction false} RunKeepsFirstFetch(w: World, run: seq<Event>, raised: uint64, bound: uint64,
                                              earlier: set<uint64>)
    requires PriceExplained(w, raised, bound) && 0 < raised && FirstFetchExplained(w, bound, earlier)
    requires Exec(w, run).Some? && NoDrops(run)
    ensures FirstFetchExplained(Exec(w, run).value, bound, earlier)
    decreases |run|
  {
    if run != [] {
      EventKeepsFirstFetch(w, run[0], raised, bound, earlier);
      RunKeepsFirstFetch(After(w, run[0]), run[1..], raised, bound, earlier);
    }
  }

  /**
   After a drop the first price stored is that of a call carrying the first nonce past the bound, or of one that was
   already fetching a price at the drop: until then every call pays the raised price, even if the chain skips the nonce.
   */
  lemma RefetchedOnlyPastBound(before: seq<Event>, run: seq<Event>)
    requires Exec(START, before).Some? && Exec(START, before).value.h.gasPrice < MAX_UINT64
    requires NoDrops(run) && Exec(After(Exec(START, before).value, DropAll), run).Some?
    ensures
      var w0 := Exec(START, before).value;
      var w := Exec(After(w0, DropAll), run).value;
      if w.stored == [] then w.h.gasPrice == w0.h.gasPrice + 1
      else w.stored[0].nonce == WrapUint64(w0.h.counter.computed as int + 1) || w.stored[0].nonce in Fetching(w0)
  {
    var w0 := Exec(START, before).value;
    var w1 := After(w0, DropAll);
    RunExplainsPrice(w1, run, w0.h.gasPrice + 1, w0.h.counter.computed);
    RunKeepsFirstFetch(w1, run, w0.h.gasPrice + 1, w0.h.counter.computed, Fetching(w0));
  }

  /**
   A call that is fetching at the drop can replace the raised price for a nonce within the bound: it took nonce 5 and
   found no price; the drop raises the price to 1 up to nonce 5; the call then stores the network's 10.
   */
  lemma FetchAcrossDropStoresFirst(tx: Tx)
    ensures
      var before := [Fetch(5)] + ([TakeNonce(0, tx, 5)] + ([CheckPrice(0)] + []));
      && Exec(START, before).Some? && Checked(START, before)
      && var w0 := Exec(START, before).value;
         var w1 := After(w0, DropAll);
         && w1.h.nonceUntilGasIncreased == 5 && w1.h.gasPrice == 1
         && Enabled(w1, StorePrice(0, Some(10))) && After(w1, StorePrice(0, Some(10))).stored == [Stored(5, 10)]
  {
    var r2 := [CheckPrice(0)] + [];
    ExecFirst(START, Fetch(5), [TakeNonce(0, tx, 5)] + r2);
    var w1 := START.(chain := 5, fetched := {5});
    ExecFirst(w1, TakeNonce(0, tx, 5), r2);
    var w2 := w1.(h := NEW.(counter := Counter(true, 5)), handed := {5}, used := 5, calls := map[0 := Numbered(tx, 5)]);
    assert After(w1, TakeNonce(0, tx, 5)) == w2;
    ExecFirst(w2, CheckPrice(0), []);
    assert After(w2, CheckPrice(0)).calls == map[0 := Refetching(tx, 5)];
  }

  function UnderbidRun(tx: Tx): seq<Event> {
    [TakeNonce(1, tx, 5)] + ([TakeNonce(2, tx, 5)] + ([CheckPrice(2)] + ([StorePrice(2, Some(10))] +
    ([CheckPrice(1)] + []))))
  }

  /**
   The overlap that loses the raised price: the price is 10 and the counter 5 before the drop; then call 1 takes nonce
   5, call 2 takes 6 and stores the network's 10 again; call 1 reads 10, not 11, for a nonce within the bound.
   */
  lemma OverlappingCallsCanUnderbid(tx: Tx)
    requires tx.gasPrice <= 10
    ensures Exec(START, FirstRun(tx)) == Some(SERVED)
    ensures
      var w0 := After(SERVED, DropAll);
      && Exec(w0, UnderbidRun(tx)).Some? && Checked(w0, UnderbidRun(tx))
      && var w := Exec(w0, UnderbidRun(tx)).value;
         && Enabled(w, ReadPrice(1)) && w.calls[1].nonce == 5 == w.h.nonceUntilGasIncreased
         && Paid(w, 1) == 10 == SERVED.h.gasPrice
  {
    FirstCall(tx);
    var r4 := [CheckPrice(1)] + [];
    var r3 := [StorePrice(2, Some(10))] + r4;
    var r2 := [CheckPrice(2)] + r3;
    var w0 := After(SERVED, DropAll);
    ExecFirst(w0, TakeNonce(1, tx, 5), [TakeNonce(2, tx, 5)] + r2);
    var w1 := After(w0, TakeNonce(1, tx, 5));
    ExecFirst(w1, TakeNonce(2, tx, 5), r2);
    var w2 := After(w1, TakeNonce(2, tx, 5));
    ExecFirst(w2, CheckPrice(2), r3);
    var w3 := After(w2, CheckPrice(2));
    ExecFirst(w3, StorePrice(2, Some(10)), r4);
    ExecFirst(After(w3, StorePrice(2, Some(10))), CheckPrice(1), []);
  }
}
