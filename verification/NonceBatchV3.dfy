/** The V3 handlers in place: one handler per address, and batches that mix senders. */
module NonceBatchV3 {
  import opened GoTypes
  import opened NonceHandlerV3

  class FrontendTransaction {
    const sender: Bytes
    var nonce: uint64
    var gasPrice: uint64

    constructor (sender: Bytes, nonce: uint64, gasPrice: uint64)
      ensures this.sender == sender && this.nonce == nonce && this.gasPrice == gasPrice
    {
      this.sender, this.nonce, this.gasPrice := sender, nonce, gasPrice;
    }
  }

  /** NilNetworkConfig is the nil dereference that follows a failed fetch of the network configuration. */
  datatype Error = AccountUnavailable | NilNetworkConfig | InvalidSender

  ghost predicate Distinct(txs: seq<FrontendTransaction>) {
    forall i, j :: 0 <= i < j < |txs| ==> txs[i] != txs[j]
  }

  /** The nonce the next computeNonce hands out, given the account nonce it would fetch. */
  function FirstNonce(nonce: int64, account: Option<uint64>): Option<uint64> {
    ComputeNonce(nonce, account).1
  }

  /** The price applied from now on: the cached one, or the network minimum where none is cached. */
  function Price(gasPrice: uint64, network: Option<uint64>): Option<uint64> {
    if gasPrice != 0 then Some(gasPrice) else network
  }

  /** What the fetches made for the transactions of a sender, one after the other, would return. */
  type Fetches = nat -> Option<uint64>

  /** The price the i-th transaction gets: the network is asked again for as long as it answers zero. */
  function PriceAt(gasPrice: uint64, network: Fetches, i: nat): Option<uint64> {
    if i == 0 then Price(gasPrice, network(0))
    else
      match PriceAt(gasPrice, network, i - 1)
      case None => None
      case Some(p) => Price(p, network(i))
  }

  ghost predicate OnlyZeroes(network: Fetches, i: nat) {
    forall k: nat :: k < i ==> network(k) == Some(0)
  }

  /** That is the cached price, or else the network's first answer that is not zero, where none before failed. */
  lemma {:induction false} PriceIsFirstFound(gasPrice: uint64, network: Fetches, i: nat)
    ensures gasPrice != 0 ==> PriceAt(gasPrice, network, i) == Some(gasPrice)
    ensures gasPrice == 0 && OnlyZeroes(network, i + 1) ==> PriceAt(gasPrice, network, i) == Some(0)
    ensures forall j: nat :: gasPrice == 0 && j <= i && OnlyZeroes(network, j) && network(j) != Some(0) ==>
      PriceAt(gasPrice, network, i) == network(j)
  {
    if i > 0 {
      PriceIsFirstFound(gasPrice, network, i - 1);
      forall j: nat | gasPrice == 0 && j <= i && OnlyZeroes(network, j) && network(j) != Some(0)
        ensures PriceAt(gasPrice, network, i) == network(j)
      {
        if j == i { assert OnlyZeroes(network, i - 1 + 1); }
      }
      if gasPrice == 0 && OnlyZeroes(network, i + 1) { assert OnlyZeroes(network, i - 1 + 1) && network(i) == Some(0); }
    }
  }

  /** A failed fetch of the price ends the call, whatever comes later. */
  lemma {:induction false} PriceStaysLost(gasPrice: uint64, network: Fetches, i: nat, j: nat)
    requires i <= j
    ensures PriceAt(gasPrice, network, i).None? ==> PriceAt(gasPrice, network, j).None?
    ensures Price(gasPrice, network(0)).None? ==> PriceAt(gasPrice, network, j).None?
    decreases j
  {
    if 0 < j && i == j { PriceStaysLost(gasPrice, network, 0, j - 1); }
    if i < j { PriceStaysLost(gasPrice, network, i, j - 1); }
  }

  /** There are a first nonce and prices for a group of `count` transactions, and its nonces stay below 2^64. */
  ghost predicate Servable(nonce: int64, gasPrice: uint64, account: Option<uint64>, network: Fetches, count: nat) {
    && FirstNonce(nonce, account).Some? && FirstNonce(nonce, account).value as int + count <= TWO_64
    && (count > 0 ==> PriceAt(gasPrice, network, count - 1).Some?)
  }

  /**
   Before the i-th turn: the first one hands out `first`, and after it, short of the top of the range, the cached nonce
   is the last one of those that count up from there.
   */
  ghost predicate OnTrack(nonce: int64, first: Option<uint64>, accounts: Fetches, i: nat) {
    if i == 0 then first == FirstNonce(nonce, accounts(0))
    else first.Some? && (first.value as int + i <= TWO_64 ==> ToUint64(nonce) == first.value as int + (i - 1))
  }

  lemma StaysOnTrack(nonce: int64, first: Option<uint64>, accounts: Fetches, i: nat)
    requires OnTrack(nonce, first, accounts, i)
    ensures var (next, handed) := ComputeNonce(nonce, accounts(i));
      && (first.None? ==> i == 0 && handed.None?)
      && (first.Some? && first.value as int + i < TWO_64 ==> handed == Some(first.value + i))
      && (first.Some? ==> OnTrack(next, first, accounts, i + 1))
  {
  }

  class AddressNonceHandler {
    var nonce: int64
    var gasPrice: uint64

    constructor ()
      ensures nonce == INVALID && gasPrice == 0
    {
      nonce, gasPrice := INVALID, 0;
    }

    method Compute(account: Option<uint64>) returns (handed: Option<uint64>)
      modifies this`nonce
      ensures (nonce, handed) == ComputeNonce(old(nonce), account)
    {
      if nonce == -1 {
        if account.None? { return None; }
        nonce := ToInt64(account.value);
      } else {
        nonce := WrapInt64(nonce as int + 1);
      }
      return Some(ToUint64(nonce));
    }

    method AdaptNonceBasedOnResponse(failed: bool)
      modifies this`nonce
      ensures forall caller: nat :: nonce == NonceAfter(old(nonce), Respond(caller, failed))
      ensures failed ==> forall account :: ComputeNonce(nonce, account).1 == account
    {
      if failed { nonce := INVALID; }
    }

    method ApplyGasPriceIfRequired(tx: FrontendTransaction, network: Option<uint64>) returns (ok: bool)
      modifies this`gasPrice, tx`gasPrice
      ensures ok <==> Price(old(gasPrice), network).Some?
      ensures ok ==>
        var p := Price(old(gasPrice), network).value; gasPrice == p && tx.gasPrice == Max(p, old(tx.gasPrice))
      ensures !ok ==> gasPrice == old(gasPrice) && tx.gasPrice == old(tx.gasPrice)
    {
      var price := gasPrice;
      if price == 0 {
        if network.None? { return false; }
        price := network.value;
      }
      gasPrice := price;
      tx.gasPrice := Max(price, tx.gasPrice);
      return true;
    }

    /** One turn of the loop of ApplyNonceAndGasPrice. */
    method ApplyOne(tx: FrontendTransaction, account: Option<uint64>, network: Option<uint64>)
      returns (err: Option<Error>)
      modifies this, tx
      ensures nonce == ComputeNonce(old(nonce), account).0
      ensures FirstNonce(old(nonce), account).None? ==> err == Some(AccountUnavailable)
      ensures FirstNonce(old(nonce), account).Some? && Price(old(gasPrice), network).None? ==>
        err == Some(NilNetworkConfig)
      ensures FirstNonce(old(nonce), account).Some? && Price(old(gasPrice), network).Some? ==>
        && err.None? && Price(old(gasPrice), network) == Some(gasPrice)
        && tx.nonce == FirstNonce(old(nonce), account).value && tx.gasPrice == Max(gasPrice, old(tx.gasPrice))
    {
      var handed := Compute(account);
      if handed.None? { return Some(AccountUnavailable); }
      tx.nonce := handed.value;
      var ok := ApplyGasPriceIfRequired(tx, network);
      return if ok then None else Some(NilNetworkConfig);
    }

    /** The same, as the i-th turn of the loop. */
    method ApplyTurn(txs: seq<FrontendTransaction>, i: nat, accounts: Fetches, network: Fetches,
                     ghost before: seq<uint64>, ghost first: Option<uint64>, ghost base: uint64)
      returns (err: Option<Error>)
      requires i < |txs| && OnTrack(nonce, first, accounts, i)
      requires if i == 0 then gasPrice == base else PriceAt(base, network, i - 1) == Some(gasPrice)
      requires Distinct(txs) ==> DoneUpTo(txs, i, before, first, base, network)
      modifies this, txs[i]
      ensures err.None? ==> OnTrack(nonce, first, accounts, i + 1) && PriceAt(base, network, i) == Some(gasPrice)
      ensures err.None? && Distinct(txs) ==> DoneUpTo(txs, i + 1, before, first, base, network)
      ensures first.None? ==> err == Some(AccountUnavailable)
      ensures first.Some? && first.value as int + i < TWO_64 ==>
        err == if PriceAt(base, network, i).Some? then None else Some(NilNetworkConfig)
    {
      StaysOnTrack(nonce, first, accounts, i);
      err := ApplyOne(txs[i], accounts(i), network(i));
    }

    /**
     `accounts(i)` and `network(i)` are what fetching the account and the minimum price for the i-th transaction would
     return. The transactions, where they are distinct, get consecutive nonces in order (while these stay below 2^64)
     and a price no lower than their own and the one found. Short of the top of the nonce range the call fails exactly
     where the first account or a price cannot be fetched.
     */
    method ApplyNonceAndGasPrice(txs: seq<FrontendTransaction>, accounts: Fetches, network: Fetches)
      returns (err: Option<Error>)
      modifies this, txs
      ensures txs == [] ==> err.None? && nonce == old(nonce) && gasPrice == old(gasPrice)
      ensures txs != [] && err.None? ==>
        FirstNonce(old(nonce), accounts(0)).Some? && PriceAt(old(gasPrice), network, |txs| - 1) == Some(gasPrice)
      ensures txs != [] && err.None? && Distinct(txs) ==>
        && (forall i: nat :: i < |txs| ==> Numbered(txs[i], FirstNonce(old(nonce), accounts(0)).value, i))
        && (forall i: nat :: i < |txs| ==> PricedAs(txs[i], old(txs[i].gasPrice), old(gasPrice), network, i))
      ensures txs != [] && FirstNonce(old(nonce), accounts(0)).None? ==> err == Some(AccountUnavailable)
      ensures txs != [] && FirstNonce(old(nonce), accounts(0)).Some? && Price(old(gasPrice), network(0)).None? ==>
        err == Some(NilNetworkConfig)
      ensures
        var first := FirstNonce(old(nonce), accounts(0));
        txs != [] && first.Some? && first.value as int + |txs| <= TWO_64 ==>
          err == if PriceAt(old(gasPrice), network, |txs| - 1).Some? then None else Some(NilNetworkConfig)
    {
      ghost var before, first, base := GasPrices(txs), FirstNonce(nonce, accounts(0)), gasPrice;
      for i := 0 to |txs|
        invariant OnTrack(nonce, first, accounts, i)
        invariant i == 0 ==> nonce == old(nonce) && gasPrice == base
        invariant i > 0 ==> PriceAt(base, network, i - 1) == Some(gasPrice) && Price(base, network(0)).Some?
        invariant Distinct(txs) ==> DoneUpTo(txs, i, before, first, base, network)
      {
        PriceStaysLost(base, network, i, |txs| - 1);
        err := ApplyTurn(txs, i, accounts, network, before, first, base);
        if err.Some? { return; }
      }
      return None;
    }
  }

  /** The k-th transaction got the price found for it, or its own where that is higher. */
  ghost predicate PricedAs(tx: FrontendTransaction, was: uint64, gasPrice: uint64, network: Fetches, k: nat)
    reads tx
  {
    PriceAt(gasPrice, network, k).Some? && tx.gasPrice == Max(PriceAt(gasPrice, network, k).value, was)
  }

  /** The first i transactions are numbered and priced, the others have the price they had. */
  ghost predicate DoneUpTo(txs: seq<FrontendTransaction>, i: nat, before: seq<uint64>, first: Option<uint64>,
                           base: uint64, network: Fetches)
    reads txs
  {
    && |before| == |txs| && i <= |txs| && (i > 0 ==> first.Some?)
    && (forall k: nat :: k < i ==> Numbered(txs[k], first.value, k) && PricedAs(txs[k], before[k], base, network, k))
    && (forall k: nat :: i <= k < |txs| ==> txs[k].gasPrice == before[k])
  }

  ghost predicate Numbered(tx: FrontendTransaction, first: uint64, k: nat)
    reads tx
  {
    first as int + k < TWO_64 ==> tx.nonce == first as int + k
  }

  // ---------- batches ----------

  /** The transactions of one sender, in input order. */
  ghost function BySender(txs: seq<FrontendTransaction>, sender: Bytes): seq<FrontendTransaction> {
    if txs == [] then []
    else
      var last := txs[|txs| - 1];
      BySender(txs[..|txs| - 1], sender) + if last.sender == sender then [last] else []
  }

  lemma {:induction false} BySenderMembers(txs: seq<FrontendTransaction>, sender: Bytes)
    ensures forall k: nat :: k < |BySender(txs, sender)| ==>
      BySender(txs, sender)[k] in txs && BySender(txs, sender)[k].sender == sender
    ensures Distinct(txs) ==> Distinct(BySender(txs, sender))
  {
    if txs != [] {
      var init := txs[..|txs| - 1];
      BySenderMembers(init, sender);
      assert txs == init + [txs[|txs| - 1]];
    }
  }

  /** How many earlier transactions of the batch have the same sender. */
  ghost function Rank(txs: seq<FrontendTransaction>, i: nat): nat
    requires i < |txs|
  {
    |BySender(txs[..i], txs[i].sender)|
  }

  lemma {:induction false} RankIsPosition(txs: seq<FrontendTransaction>, i: nat)
    requires i < |txs|
    ensures var group := BySender(txs, txs[i].sender); Rank(txs, i) < |group| && group[Rank(txs, i)] == txs[i]
  {
    var init := txs[..|txs| - 1];
    if i < |txs| - 1 {
      RankIsPosition(init, i);
      assert init[..i] == txs[..i];
    } else {
      assert init == txs[..i];
    }
  }

  /** Every sender's transactions, in input order, under the sender, and nothing else. */
  ghost predicate Grouped(txs: seq<FrontendTransaction>, groups: map<Bytes, seq<FrontendTransaction>>) {
    && (forall s :: s in groups ==> groups[s] == BySender(txs, s) != [])
    && (forall s :: s !in groups ==> BySender(txs, s) == [])
  }

  /** filterTransactionsBySenderAddress */
  method FilterBySender(txs: seq<FrontendTransaction>) returns (groups: map<Bytes, seq<FrontendTransaction>>)
    ensures Grouped(txs, groups)
  {
    groups := map[];
    for i := 0 to |txs|
      invariant Grouped(txs[..i], groups)
    {
      assert txs[..i + 1][..i] == txs[..i];
      var tx := txs[i];
      var group := if tx.sender in groups then groups[tx.sender] else [];
      groups := groups[tx.sender := group + [tx]];
    }
    assert txs[..|txs|] == txs;
  }

  lemma GroupOf(txs: seq<FrontendTransaction>, groups: map<Bytes, seq<FrontendTransaction>>, s: Bytes)
    requires Grouped(txs, groups) && s in groups
    ensures groups[s] == BySender(txs, s) != [] && forall k: nat :: k < |groups[s]| ==> groups[s][k] in txs
  {
    BySenderMembers(txs, s);
  }

  lemma SendersAreGrouped(txs: seq<FrontendTransaction>, groups: map<Bytes, seq<FrontendTransaction>>)
    requires Grouped(txs, groups)
    ensures forall i: nat :: i < |txs| ==> txs[i].sender in groups
  {
    forall i: nat | i < |txs| ensures txs[i].sender in groups { RankIsPosition(txs, i); }
  }

  /** What a sender was served with: its first nonce, and the price its handler had cached before and after. */
  datatype Service = Service(first: uint64, base: uint64, price: uint64)

  type Services = map<Bytes, Service>

  /** Every transaction of a served sender got the price found for it or its own, every other one is as before. */
  ghost predicate Priced(txs: seq<FrontendTransaction>, before: seq<uint64>, served: Services,
                         network: Bytes -> Fetches)
    reads txs
  {
    && |before| == |txs|
    && forall i: nat :: i < |txs| ==>
         var s := txs[i].sender;
         if s in served then PricedAs(txs[i], before[i], served[s].base, network(s), Rank(txs, i))
         else txs[i].gasPrice == before[i]
  }

  /** The k-th transaction of a served sender got the sender's first nonce plus k. */
  ghost predicate Numbering(txs: seq<FrontendTransaction>, served: Services)
    reads txs
  {
    forall i: nat :: i < |txs| && txs[i].sender in served ==>
      Numbered(txs[i], served[txs[i].sender].first, Rank(txs, i))
  }

  class NonceTransactionsHandler {
    var handlers: map<Bytes, AddressNonceHandler>

    /** No two addresses share a handler. */
    ghost predicate Valid()
      reads this
    {
      forall a, b :: a in handlers && b in handlers && handlers[a] == handlers[b] ==> a == b
    }

    constructor ()
      ensures Valid() && handlers == map[]
    {
      handlers := map[];
    }

    method GetOrCreate(address: Bytes) returns (h: AddressNonceHandler)
      requires Valid()
      modifies this
      ensures Valid() && handlers == old(handlers)[address := h]
      ensures address in old(handlers) ==> h == old(handlers)[address]
      ensures address !in old(handlers) ==> fresh(h)
      ensures Book() == old(Book())[address := EntryOf(old(Book()), address)]
    {
      if address in handlers {
        return handlers[address];
      }
      h := new AddressNonceHandler();
      handlers := handlers[address := h];
    }

    /** The state of all handlers, by address. */
    ghost function Book(): Ledger
      reads this, handlers.Values
    {
      map a | a in handlers :: Entry(handlers[a].nonce, handlers[a].gasPrice)
    }

    /** The handler of the address serves a group; the others are as before. */
    method ApplyWith(h: AddressNonceHandler, address: Bytes, group: seq<FrontendTransaction>, accounts: Fetches,
                     network: Fetches)
      returns (err: Option<Error>)
      requires Valid() && group != [] && address in handlers && handlers[address] == h
      modifies h, group
      ensures ChangedOnlyAt(old(Book()), Book(), address)
      ensures err.None? ==>
        && FirstNonce(old(h.nonce), accounts(0)).Some?
        && PriceAt(old(h.gasPrice), network, |group| - 1) == Some(Book()[address].gasPrice)
      ensures err.None? && Distinct(group) ==>
        forall k: nat :: k < |group| ==>
          && Numbered(group[k], FirstNonce(old(h.nonce), accounts(0)).value, k)
          && PricedAs(group[k], old(group[k].gasPrice), old(h.gasPrice), network, k)
      ensures Servable(old(h.nonce), old(h.gasPrice), accounts(0), network, |group|) ==> err.None?
    {
      err := h.ApplyNonceAndGasPrice(group, accounts, network);
      assert forall a :: a in handlers && a != address ==> handlers[a] != h;
    }

    /** One group of a batch, all transactions of one sender: only the handler of that address changes. */
    method ApplyGroup(address: Bytes, group: seq<FrontendTransaction>, accounts: Fetches, network: Fetches)
      returns (err: Option<Error>)
      requires Valid() && group != []
      modifies this, handlers.Values, group
      ensures Valid() && fresh(handlers.Values - old(handlers.Values))
      ensures ChangedOnlyAt(old(Book()), Book(), address)
      ensures err.None? ==>
        && FirstNonce(EntryOf(old(Book()), address).nonce, accounts(0)).Some?
        && PriceAt(EntryOf(old(Book()), address).gasPrice, network, |group| - 1) == Some(Book()[address].gasPrice)
      ensures err.None? && Distinct(group) ==>
        forall k: nat :: k < |group| ==>
          && Numbered(group[k], FirstNonce(EntryOf(old(Book()), address).nonce, accounts(0)).value, k)
          && PricedAs(group[k], old(group[k].gasPrice), EntryOf(old(Book()), address).gasPrice, network, k)
      ensures ServableBy(EntryOf(old(Book()), address), accounts(0), network, |group|) ==> err.None?
    {
      var h := GetOrCreate(address);
      err := ApplyWith(h, address, group, accounts, network);
    }

    /** The same, seen from the whole batch. */
    method ApplySender(txs: seq<FrontendTransaction>, group: seq<FrontendTransaction>, sender: Bytes, address: Bytes,
                       accounts: Bytes -> Fetches, network: Bytes -> Fetches,
                       ghost before: seq<uint64>, ghost served: Services)
      returns (err: Option<Error>, ghost service: Service)
      requires Valid() && group == BySender(txs, sender) != [] && sender !in served
      requires Distinct(txs) ==> Priced(txs, before, served, network) && Numbering(txs, served)
      modifies this, handlers.Values, group
      ensures Valid() && fresh(handlers.Values - old(handlers.Values))
      ensures ChangedOnlyAt(old(Book()), Book(), address)
      ensures err.None? ==>
        && Some(service.first) == FirstNonce(EntryOf(old(Book()), address).nonce, accounts(sender)(0))
        && service.base == EntryOf(old(Book()), address).gasPrice && service.price == Book()[address].gasPrice
        && PriceAt(service.base, network(sender), |group| - 1) == Some(service.price)
      ensures err.None? && Distinct(txs) ==>
        Numbering(txs, served[sender := service]) && Priced(txs, before, served[sender := service], network)
      ensures ServableBy(EntryOf(old(Book()), address), accounts(sender)(0), network(sender), |group|) ==> err.None?
    {
      BySenderMembers(txs, sender);
      ghost var was := seq(|txs|, i requires 0 <= i < |txs| reads txs => txs[i].gasPrice);
      ghost var entry := EntryOf(Book(), address);
      err := ApplyGroup(address, group, accounts(sender), network(sender));
      service := Service(0, 0, 0);
      if err.None? {
        ghost var first := FirstNonce(entry.nonce, accounts(sender)(0)).value;
        service := Service(first, entry.gasPrice, Book()[address].gasPrice);
        forall i: nat | i < |txs| && Distinct(txs)
          ensures txs[i].sender == sender ==> Numbered(txs[i], service.first, Rank(txs, i))
          ensures txs[i].sender == sender ==> PricedAs(txs[i], was[i], service.base, network(sender), Rank(txs, i))
          ensures txs[i].sender != sender ==> txs[i].gasPrice == was[i]
        {
          if txs[i].sender == sender { RankIsPosition(txs, i); }
        }
      }
    }

    /** The same, with the books of the batch kept: `left` are the senders still to be served. */
    method ServeSender(txs: seq<FrontendTransaction>, group: seq<FrontendTransaction>, sender: Bytes,
                       decode: Bytes -> Option<Bytes>, accounts: Bytes -> Fetches, network: Bytes -> Fetches,
                       ghost left: set<Bytes>, ghost book0: Ledger, ghost before: seq<uint64>, ghost served: Services)
      returns (err: Option<Error>, ghost service: Service)
      requires Valid() && group == BySender(txs, sender) != [] && sender in left && sender !in served
      requires Distinct(txs) ==> Priced(txs, before, served, network) && Numbering(txs, served)
      requires BooksKept(txs, left, served, decode, accounts, network, book0, Book())
      modifies this, handlers.Values, group
      ensures Valid() && fresh(handlers.Values - old(handlers.Values))
      ensures err.None? && Distinct(txs) ==>
        Priced(txs, before, served[sender := service], network) && Numbering(txs, served[sender := service])
      ensures err.None? ==>
        BooksKept(txs, left - {sender}, served[sender := service], decode, accounts, network, book0, Book())
      ensures err.Some? && Injective(decode) ==> !AllServable(txs, decode, accounts, network, book0)
    {
      SenderOfServable(txs, sender, decode, accounts, network, book0);
      if decode(sender).None? { return Some(InvalidSender), Service(0, 0, 0); }
      var address := decode(sender).value;
      ghost var book := Book();
      assert Injective(decode) ==> SameEntry(sender, decode, book0, book);
      err, service := ApplySender(txs, group, sender, address, accounts, network, before, served);
      if err.None? {
        ServeOne(txs, served, left, decode, accounts, network, book0, book, Book(), sender, service);
      }
    }

    /** The loop over the groups, in any order. */
    method ServeGroups(txs: seq<FrontendTransaction>, groups: map<Bytes, seq<FrontendTransaction>>,
                       decode: Bytes -> Option<Bytes>, accounts: Bytes -> Fetches, network: Bytes -> Fetches,
                       ghost before: seq<uint64>)
      returns (err: Option<Error>, ghost served: Services)
      requires Valid() && Grouped(txs, groups) && Priced(txs, before, map[], network)
      modifies this, handlers.Values, txs
      ensures Valid()
      ensures err.None? ==> groups.Keys <= served.Keys
      ensures err.None? && Distinct(txs) ==> Numbering(txs, served) && Priced(txs, before, served, network)
      ensures err.None? ==> BooksKept(txs, {}, served, decode, accounts, network, old(Book()), Book())
      ensures Injective(decode) && AllServable(txs, decode, accounts, network, old(Book())) ==> err.None?
    {
      served := map[];
      var left := groups.Keys;
      while left != {}
        invariant left <= groups.Keys && served.Keys !! left && groups.Keys <= left + served.Keys
        invariant Valid() && fresh(handlers.Values - old(handlers.Values))
        invariant Distinct(txs) ==> Priced(txs, before, served, network) && Numbering(txs, served)
        invariant BooksKept(txs, left, served, decode, accounts, network, old(Book()), Book())
        decreases left
      {
        var sender :| sender in left;
        GroupOf(txs, groups, sender);
        ghost var service;
        err, service := ServeSender(txs, groups[sender], sender, decode, accounts, network, left, old(Book()), before,
                                    served);
        if err.Some? { return; }
        served, left := served[sender := service], left - {sender};
      }
      return None, served;
    }

    /**
     A batch in any order of its groups. `decode` is the bech32 decoding; `accounts(s)(k)` and `network(s)(k)` are what
     fetches for the k-th transaction of sender s would return. On success each sender's transactions are numbered from
     the sender's first nonce, in input order, and every transaction is priced once, by its own handler. The first nonce
     is the one its handler had to hand out before the batch and the price is found from the one it had cached, unless
     two senders decode to the same address. The batch succeeds if every sender decodes, has an account and prices, and
     stays below the top of the nonce range.
     */
    method ApplyNonceAndGasPrice(txs: seq<FrontendTransaction>, decode: Bytes -> Option<Bytes>,
                                 accounts: Bytes -> Fetches, network: Bytes -> Fetches)
      returns (err: Option<Error>, ghost served: Services)
      requires Valid()
      modifies this, handlers.Values, txs
      ensures Valid()
      ensures err.None? ==> forall i: nat :: i < |txs| ==> txs[i].sender in served
      ensures err.None? ==> Settled(txs, served, network) && PricesCached(served, decode, old(Book()), Book())
      ensures err.None? && Distinct(txs) ==> Numbering(txs, served) && Priced(txs, old(GasPrices(txs)), served, network)
      ensures err.None? && Injective(decode) ==> ServedExactly(served, decode, accounts, old(Book()), Book())
      ensures Injective(decode) && AllServable(txs, decode, accounts, network, old(Book())) ==> err.None?
    {
      ghost var before := GasPrices(txs);
      var groups := FilterBySender(txs);
      SendersAreGrouped(txs, groups);
      assert Book() == old(Book());
      err, served := ServeGroups(txs, groups, decode, accounts, network, before);
    }
  }

  /** What was served so far agrees with the handlers; the handlers of the senders left are as they were. */
  ghost predicate BooksKept(txs: seq<FrontendTransaction>, left: set<Bytes>, served: Services,
                            decode: Bytes -> Option<Bytes>, accounts: Bytes -> Fetches, network: Bytes -> Fetches,
                            book0: Ledger, book: Ledger)
  {
    && Settled(txs, served, network) && PricesCached(served, decode, book0, book) && PricesStay(book0, book)
    && (Injective(decode) ==>
          ServedExactly(served, decode, accounts, book0, book) && Untouched(left, decode, book0, book))
  }

  datatype Entry = Entry(nonce: int64, gasPrice: uint64)

  type Ledger = map<Bytes, Entry>

  /** An address without a handler gets a new one: nothing fetched yet, no price cached. */
  function EntryOf(book: Ledger, address: Bytes): Entry {
    if address in book then book[address] else Entry(INVALID, 0)
  }

  ghost predicate ChangedOnlyAt(book: Ledger, book': Ledger, address: Bytes) {
    && address in book'
    && forall a :: a != address ==> EntryOf(book', a) == EntryOf(book, a) && (a in book' <==> a in book)
  }

  ghost function GasPrices(txs: seq<FrontendTransaction>): seq<uint64>
    reads txs
  {
    seq(|txs|, i requires 0 <= i < |txs| reads txs => txs[i].gasPrice)
  }

  ghost predicate PriceStays(a: Bytes, book0: Ledger, book: Ledger) {
    EntryOf(book0, a).gasPrice != 0 ==> EntryOf(book, a).gasPrice == EntryOf(book0, a).gasPrice
  }

  /** A cached price is never given up. */
  ghost predicate PricesStay(book0: Ledger, book: Ledger) {
    forall a {:trigger PriceStays(a, book0, book)} :: PriceStays(a, book0, book)
  }

  ghost predicate SettledFor(s: Bytes, txs: seq<FrontendTransaction>, served: Services, network: Bytes -> Fetches) {
    s in served ==>
      && BySender(txs, s) != []
      && PriceAt(served[s].base, network(s), |BySender(txs, s)| - 1) == Some(served[s].price)
  }

  /** The price cached after serving a sender is the one its last transaction found. */
  ghost predicate Settled(txs: seq<FrontendTransaction>, served: Services, network: Bytes -> Fetches) {
    forall s {:trigger SettledFor(s, txs, served, network)} :: SettledFor(s, txs, served, network)
  }

  ghost predicate PriceCached(s: Bytes, served: Services, decode: Bytes -> Option<Bytes>, book0: Ledger, book: Ledger) {
    s in served ==>
      && decode(s).Some? && decode(s).value in book
      && (served[s].price != 0 ==> book[decode(s).value].gasPrice == served[s].price)
      && (EntryOf(book0, decode(s).value).gasPrice != 0 ==>
            served[s].base == EntryOf(book0, decode(s).value).gasPrice)
  }

  /** A price that was cached before the batch is the one paid, and a price once found is cached now. */
  ghost predicate PricesCached(served: Services, decode: Bytes -> Option<Bytes>, book0: Ledger, book: Ledger) {
    forall s {:trigger PriceCached(s, served, decode, book0, book)} :: PriceCached(s, served, decode, book0, book)
  }

  ghost predicate ServableBy(e: Entry, account: Option<uint64>, network: Fetches, count: nat) {
    Servable(e.nonce, e.gasPrice, account, network, count)
  }

  /** The sender decodes to an address whose handler can serve all its transactions of the batch. */
  ghost predicate SenderServable(txs: seq<FrontendTransaction>, s: Bytes, decode: Bytes -> Option<Bytes>,
                                 accounts: Bytes -> Fetches, network: Bytes -> Fetches, book: Ledger)
  {
    && decode(s).Some?
    && ServableBy(EntryOf(book, decode(s).value), accounts(s)(0), network(s), |BySender(txs, s)|)
  }

  ghost predicate AllServable(txs: seq<FrontendTransaction>, decode: Bytes -> Option<Bytes>,
                              accounts: Bytes -> Fetches, network: Bytes -> Fetches, book: Ledger)
  {
    forall i: nat :: i < |txs| ==> SenderServable(txs, txs[i].sender, decode, accounts, network, book)
  }

  lemma SenderOfServable(txs: seq<FrontendTransaction>, sender: Bytes, decode: Bytes -> Option<Bytes>,
                         accounts: Bytes -> Fetches, network: Bytes -> Fetches, book: Ledger)
    requires BySender(txs, sender) != []
    ensures AllServable(txs, decode, accounts, network, book) ==>
            SenderServable(txs, sender, decode, accounts, network, book)
  {
    BySenderMembers(txs, sender);
    assert BySender(txs, sender)[0] in txs;
  }

  ghost predicate ServedAsItWas(s: Bytes, served: Services, decode: Bytes -> Option<Bytes>,
                                accounts: Bytes -> Fetches, book0: Ledger, book: Ledger)
  {
    s in served ==>
      && decode(s).Some? && decode(s).value in book
      && Some(served[s].first) == FirstNonce(EntryOf(book0, decode(s).value).nonce, accounts(s)(0))
      && served[s].base == EntryOf(book0, decode(s).value).gasPrice
      && served[s].price == book[decode(s).value].gasPrice
  }

  /**
   Each served sender was numbered from the nonce its handler had to hand out and priced from the price it had cached
   before the batch; the price its last transaction found is cached now.
   */
  ghost predicate ServedExactly(served: Services, decode: Bytes -> Option<Bytes>, accounts: Bytes -> Fetches,
                                book0: Ledger, book: Ledger)
  {
    forall s {:trigger ServedAsItWas(s, served, decode, accounts, book0, book)} ::
      ServedAsItWas(s, served, decode, accounts, book0, book)
  }

  ghost predicate SameEntry(s: Bytes, decode: Bytes -> Option<Bytes>, book0: Ledger, book: Ledger) {
    decode(s).Some? ==> EntryOf(book, decode(s).value) == EntryOf(book0, decode(s).value)
  }

  ghost predicate Untouched(senders: set<Bytes>, decode: Bytes -> Option<Bytes>, book0: Ledger, book: Ledger) {
    forall s {:trigger SameEntry(s, decode, book0, book)} :: s in senders ==> SameEntry(s, decode, book0, book)
  }

  ghost predicate SameAddress(s: Bytes, t: Bytes, decode: Bytes -> Option<Bytes>) {
    decode(s).Some? && decode(s) == decode(t)
  }

  /** Different senders never decode to the same address. */
  ghost predicate Injective(decode: Bytes -> Option<Bytes>) {
    forall s, t {:trigger SameAddress(s, t, decode)} :: SameAddress(s, t, decode) ==> s == t
  }

  /** Serving one more sender keeps the prices: one that was found is not given up. */
  lemma ServeOnePrice(served: Services, decode: Bytes -> Option<Bytes>, book0: Ledger, book: Ledger, book': Ledger,
                      sender: Bytes, service: Service)
    requires decode(sender).Some? && ChangedOnlyAt(book, book', decode(sender).value)
    requires service.base == EntryOf(book, decode(sender).value).gasPrice
    requires service.price == book'[decode(sender).value].gasPrice
    requires service.base != 0 ==> service.price == service.base
    requires PricesCached(served, decode, book0, book) && PricesStay(book0, book)
    ensures PricesCached(served[sender := service], decode, book0, book') && PricesStay(book0, book')
  {
    var served' := served[sender := service];
    forall a ensures PriceStays(a, book0, book') { assert PriceStays(a, book0, book); }
    forall s ensures PriceCached(s, served', decode, book0, book') {
      assert PriceCached(s, served, decode, book0, book);
      if s in served' { assert PriceStays(decode(s).value, book0, book); }
    }
  }

  /** And, where senders do not share addresses, what is known of the served ones and of those still to be served. */
  lemma ServeOneExactly(served: Services, left: set<Bytes>, decode: Bytes -> Option<Bytes>, accounts: Bytes -> Fetches,
                        book0: Ledger, book: Ledger, book': Ledger, sender: Bytes, service: Service)
    requires Injective(decode) && sender in left
    requires decode(sender).Some? && ChangedOnlyAt(book, book', decode(sender).value)
    requires var e := EntryOf(book, decode(sender).value);
      && Some(service.first) == FirstNonce(e.nonce, accounts(sender)(0)) && service.base == e.gasPrice
      && service.price == book'[decode(sender).value].gasPrice
    requires ServedExactly(served, decode, accounts, book0, book) && Untouched(left, decode, book0, book)
    ensures ServedExactly(served[sender := service], decode, accounts, book0, book')
    ensures Untouched(left - {sender}, decode, book0, book')
  {
    var served' := served[sender := service];
    assert SameEntry(sender, decode, book0, book);
    forall s ensures ServedAsItWas(s, served', decode, accounts, book0, book') {
      assert ServedAsItWas(s, served, decode, accounts, book0, book);
      if s != sender { assert !SameAddress(s, sender, decode); }
    }
    forall s | s in left - {sender} ensures SameEntry(s, decode, book0, book') {
      assert SameEntry(s, decode, book0, book) && !SameAddress(s, sender, decode);
    }
  }

  lemma ServeOne(txs: seq<FrontendTransaction>, served: Services, left: set<Bytes>, decode: Bytes -> Option<Bytes>,
                 accounts: Bytes -> Fetches, network: Bytes -> Fetches, book0: Ledger, book: Ledger, book': Ledger,
                 sender: Bytes, service: Service)
    requires sender in left && decode(sender).Some? && ChangedOnlyAt(book, book', decode(sender).value)
    requires var e := EntryOf(book, decode(sender).value);
      && Some(service.first) == FirstNonce(e.nonce, accounts(sender)(0)) && service.base == e.gasPrice
      && service.price == book'[decode(sender).value].gasPrice
    requires BySender(txs, sender) != []
    requires PriceAt(service.base, network(sender), |BySender(txs, sender)| - 1) == Some(service.price)
    requires BooksKept(txs, left, served, decode, accounts, network, book0, book)
    ensures BooksKept(txs, left - {sender}, served[sender := service], decode, accounts, network, book0, book')
  {
    var served' := served[sender := service];
    forall s ensures SettledFor(s, txs, served', network) { assert SettledFor(s, txs, served, network); }
    PriceIsFirstFound(service.base, network(sender), |BySender(txs, sender)| - 1);
    ServeOnePrice(served, decode, book0, book, book', sender, service);
    if Injective(decode) {
      ServeOneExactly(served, left, decode, accounts, book0, book, book', sender, service);
    }
  }
}
