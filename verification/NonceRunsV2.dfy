/**
 What a V2 handler guarantees over runs of whole calls: any sequence of calls, each made with the account nonce fetched
 for it, on a chain whose account nonce never decreases. NonceSectionsV2 treats calls that overlap.
 */
module NonceRunsV2 {
  import opened GoTypes
  import opened NonceCounter
  import opened NonceHandlerV2

  datatype Event =
    | ApplyTx(tx: Tx, account: Option<uint64>, network: Option<uint64>)
    | SendTx(tx: Tx)
    | Sweep(account: Option<uint64>)
    | DropAll

  /** The handler, the last account nonce seen and the nonces handed out since the last drop. */
  datatype World = World(h: Handler, chain: uint64, handed: set<uint64>)

  function Fetched(w: World, account: Option<uint64>): uint64 {
    if account.Some? then account.value else w.chain
  }

  /** The chain nonce does not decrease, the counter does not wrap, and only handed-out nonces are sent. */
  ghost predicate Legal(w: World, e: Event) {
    match e
    case ApplyTx(_, account, _) => w.chain <= Fetched(w, account) && w.h.counter.computed < MAX_UINT64
    case SendTx(tx) => tx.nonce in w.handed
    case Sweep(account) => w.chain <= Fetched(w, account)
    case DropAll => true
  }

  ghost predicate Next(w: World, e: Event, w': World) {
    match e
    case ApplyTx(tx, account, network) =>
      var (h, tx', err) := Apply(w.h, tx, account, network);
      w' == World(h, Fetched(w, account), if err.None? then w.handed + {tx'.nonce} else w.handed)
    case SendTx(tx) => w' == w.(h := Send(w.h, tx))
    case Sweep(account) =>
      && w' == w.(h := w'.h, chain := Fetched(w, account))
      && (account.None? ==> w'.h == w.h)
      && (account.Some? ==> Swept(w.h, account.value, w'.h, w'.h.transactions))
    case DropAll => w' == World(Drop(w.h), w.chain, {})
  }

  /** worlds[i+1] follows worlds[i] by events[i]. */
  ghost predicate IsRun(worlds: seq<World>, events: seq<Event>) {
    && |worlds| == |events| + 1
    && forall i :: 0 <= i < |events| ==> Legal(worlds[i], events[i]) && Next(worlds[i], events[i], worlds[i + 1])
  }

  // ---------- the sweep ----------

  /**
   A sweep that finds the counter ahead of the chain closes the handler: until the account nonce has reached the lowest
   nonce kept, every call fails with a gap, beginning with one made at the account nonce of the sweep itself.
   */
  lemma SweepClosesUntilCaughtUp(h: Handler, account: uint64, h': Handler, resent: Cache, later: uint64)
    requires SweptInFull(h, account, h', resent)
    ensures GetNonce(h', Some(account)).1 == Err(GapNonce) <==> account < h.counter.computed
    ensures GetNonce(h', Some(later)).1 == Err(GapNonce) <==>
            later < h.counter.computed && forall n :: n in h.transactions && account < n ==> later < n
  {
    forall n | n in resent ensures n in h.transactions && account < n { }
    forall n | n in h.transactions && account < n ensures h'.lowestNonce <= n { assert n in resent; }
  }

  ghost predicate Closed(h: Handler, account: uint64) {
    h.lowestNonce > account && h.counter.computed > account
  }

  /** Whatever the event fetches, it is the given account nonce or a failure. */
  ghost predicate FetchesOnly(e: Event, account: uint64) {
    e.ApplyTx? || e.Sweep? ==> e.account.None? || e.account.value == account
  }

  lemma EventKeepsClosed(w: World, e: Event, w': World, account: uint64)
    requires Next(w, e, w') && Closed(w.h, account) && FetchesOnly(e, account)
    ensures Closed(w'.h, account)
    ensures e.ApplyTx? ==> Apply(w.h, e.tx, e.account, e.network).2.Some? && w'.handed == w.handed
  {
  }

  lemma {:induction false} RunKeepsClosed(worlds: seq<World>, events: seq<Event>, account: uint64, i: nat)
    requires IsRun(worlds, events) && i < |worlds| && Closed(worlds[0].h, account)
    requires forall k :: 0 <= k < |events| ==> FetchesOnly(events[k], account)
    ensures Closed(worlds[i].h, account)
  {
    if i > 0 {
      RunKeepsClosed(worlds, events, account, i - 1);
      EventKeepsClosed(worlds[i - 1], events[i - 1], worlds[i], account);
    }
  }

  /**
   A sweep that finds the account nonce behind the counter closes the handler for good as long as the chain stays there:
   in every run of calls, sends, sweeps and drops no call is given a nonce. A drop does not reopen it.
   */
  lemma ClosedUntilTheChainMoves(w: World, account: uint64, worlds: seq<World>, events: seq<Event>, i: nat)
    requires IsRun(worlds, events) && account < w.h.counter.computed && Next(w, Sweep(Some(account)), worlds[0])
    requires forall k :: 0 <= k < |events| ==> FetchesOnly(events[k], account)
    requires i < |events| && events[i].ApplyTx?
    ensures Apply(worlds[i].h, events[i].tx, events[i].account, events[i].network).2.Some?
    ensures worlds[i + 1].handed == worlds[i].handed
  {
    RunKeepsClosed(worlds, events, account, i);
    EventKeepsClosed(worlds[i], events[i], worlds[i + 1], account);
  }

  // ---------- outbidding after a drop ----------

  /**
   The price is the raised one until the first nonce past the bound has been handed out, and that nonce is not handed
   out before the counter or the chain has passed the bound.
   */
  ghost predicate Outbidding(w: World, price: uint64, bound: uint64) {
    && w.h.nonceUntilGasIncreased == bound
    && (w.h.gasPrice == price || bound + 1 in w.handed)
    && (bound + 1 in w.handed ==> w.h.counter.wasSet && Max(w.h.counter.computed, w.chain) > bound)
  }

  lemma ApplyOutbids(w: World, e: Event, w': World, price: uint64, bound: uint64)
    requires e.ApplyTx? && Legal(w, e) && Next(w, e, w')
    requires 0 < price && bound < MAX_UINT64 && Outbidding(w, price, bound)
    ensures Outbidding(w', price, bound)
    ensures var (_, tx', err) := Apply(w.h, e.tx, e.account, e.network);
      err.None? && (tx'.nonce <= bound || bound + 1 !in w'.handed) ==> tx'.gasPrice == Max(price, e.tx.gasPrice)
  {
  }

  lemma {:induction false} RunKeepsOutbidding(
      worlds: seq<World>, events: seq<Event>, i: nat, price: uint64, bound: uint64)
    requires IsRun(worlds, events) && i < |worlds|
    requires 0 < price && bound < MAX_UINT64 && Outbidding(worlds[0], price, bound)
    requires forall k :: 0 <= k < |events| ==> !events[k].DropAll?
    ensures Outbidding(worlds[i], price, bound)
  {
    if i > 0 {
      RunKeepsOutbidding(worlds, events, i - 1, price, bound);
      if events[i - 1].ApplyTx? {
        ApplyOutbids(worlds[i - 1], events[i - 1], worlds[i], price, bound);
      }
    }
  }

  /**
   Calls made one after the other, from a drop to the next one: every transaction given a nonce up to the counter at
   the drop pays strictly more than the handler's price before the drop, exactly one more or its own price where that
   is higher. A chain that skips the first nonce past the bound leaves the raised price in place for every later one.
   A handler closed by a sweep gives out no nonce after the drop either, see ClosedUntilTheChainMoves.
   */
  lemma DroppedAreOutbid(w: World, worlds: seq<World>, events: seq<Event>, i: nat)
    requires IsRun(worlds, events) && Next(w, DropAll, worlds[0])
    requires forall k :: 0 <= k < |events| ==> !events[k].DropAll?
    requires w.h.gasPrice < MAX_UINT64 && w.h.counter.computed < MAX_UINT64
    requires i < |events| && events[i].ApplyTx?
    ensures
      var (_, tx', err) := Apply(worlds[i].h, events[i].tx, events[i].account, events[i].network);
      err.None? && (tx'.nonce <= w.h.counter.computed || w.h.counter.computed + 1 !in worlds[i + 1].handed) ==>
        tx'.gasPrice == Max(w.h.gasPrice as int + 1, events[i].tx.gasPrice) > w.h.gasPrice
  {
    var price, bound := w.h.gasPrice as int + 1, w.h.counter.computed;
    RunKeepsOutbidding(worlds, events, i, price, bound);
    ApplyOutbids(worlds[i], events[i], worlds[i + 1], price, bound);
  }

  /** The skip: with the bound at 5, calls at account nonces 4 and 9 hand out 4 and 9, both at the raised price. */
  lemma SkippedBoundKeepsPrice(tx: Tx, network: Option<uint64>)
    requires tx.gasPrice <= 10
    ensures
      var h0 := Drop(Handler(Counter(true, 5), 0, 10, 0, map[]));
      var (h1, tx1, _) := Apply(h0, tx, Some(4), network);
      var (h2, tx2, _) := Apply(h1, tx, Some(9), network);
      tx1.nonce == 4 && tx2.nonce == 9 && tx1.gasPrice == tx2.gasPrice == 11
  {
  }
}
