/**
 The wallet tracker: a scanner that resumes at the stored hyper block nonce after any failure, feeding an accumulator
 that another goroutine drains whenever it likes. The scanning loop may run for ever, so a tick is followed for a given
 number of its turns.
 */
module WalletTracker {
  import opened GoTypes
  import opened UpwardLoops

  // ---------- the accumulator ----------

  datatype Op = Pushed(address: Bytes) | Popped(batch: seq<Bytes>)

  /** What the accumulator holds after a history of pushes and pops. */
  function Held(log: seq<Op>): set<Bytes> {
    if log == [] then {}
    else
      match log[|log| - 1]
      case Pushed(a) => Held(log[..|log| - 1]) + {a}
      case Popped(_) => {}
  }

  ghost predicate IsListOf(batch: seq<Bytes>, addresses: set<Bytes>) {
    && (forall i, j :: 0 <= i < j < |batch| ==> batch[i] != batch[j])
    && (forall a :: a in batch <==> a in addresses)
  }

  /** Every pop returned what was held at that moment, each address once. */
  ghost predicate PopsExact(log: seq<Op>) {
    log == [] ||
    (&& PopsExact(log[..|log| - 1])
     && (log[|log| - 1].Popped? ==> IsListOf(log[|log| - 1].batch, Held(log[..|log| - 1]))))
  }

  /** The addresses pushed, in order. */
  function Pushes(log: seq<Op>): seq<Bytes> {
    if log == [] then []
    else
      Pushes(log[..|log| - 1]) + match log[|log| - 1] case Pushed(a) => [a] case Popped(_) => []
  }

  /** The addresses popped so far, by anyone. */
  function PoppedSoFar(log: seq<Op>): set<Bytes> {
    if log == [] then {}
    else
      var before := PoppedSoFar(log[..|log| - 1]);
      match log[|log| - 1]
      case Pushed(_) => before
      case Popped(batch) => before + set a | a in batch
  }

  /** Nothing pushed is lost and nothing else appears: popped and held together are exactly what was pushed. */
  lemma {:induction false} PoppedPlusHeld(log: seq<Op>)
    requires PopsExact(log)
    ensures PoppedSoFar(log) + Held(log) == set a | a in Pushes(log)
  {
    if log != [] {
      var before := log[..|log| - 1];
      PoppedPlusHeld(before);
      match log[|log| - 1] {
        case Pushed(a) =>
          assert (set x | x in Pushes(before) + [a]) == (set x | x in Pushes(before)) + {a};
          assert PoppedSoFar(log) + Held(log) == PoppedSoFar(before) + Held(before) + {a};
        case Popped(batch) =>
          assert (set a | a in batch) == Held(before);
          assert Pushes(log) == Pushes(before);
      }
    }
  }

  class AddressesAccumulator {
    var addresses: set<Bytes>
    ghost var log: seq<Op>

    ghost predicate Valid()
      reads this
    {
      addresses == Held(log) && PopsExact(log)
    }

    constructor ()
      ensures Valid() && log == []
    {
      addresses, log := {}, [];
    }

    method Push(address: Bytes)
      requires Valid()
      modifies this
      ensures Valid() && log == old(log) + [Pushed(address)]
    {
      addresses := addresses + {address};
      log := log + [Pushed(address)];
    }

    /** The map is walked in any order. */
    method Pop() returns (batch: seq<Bytes>)
      requires Valid()
      modifies this
      ensures Valid() && log == old(log) + [Popped(batch)] && IsListOf(batch, old(addresses)) && addresses == {}
    {
      batch := [];
      var left := addresses;
      while left != {}
        invariant left <= addresses && IsListOf(batch, addresses - left)
        decreases left
      {
        var a :| a in left;
        batch, left := batch + [a], left - {a};
      }
      assert addresses - left == addresses;
      addresses := {};
      log := log + [Popped(batch)];
    }

    /** Other goroutines drain the accumulator, any number of times. */
    method Interfere()
      requires Valid()
      modifies this
      ensures Valid() && Pushes(log) == Pushes(old(log))
    {
      var times: nat := *;
      while times > 0
        invariant Valid() && Pushes(log) == Pushes(old(log))
      {
        var batch := Pop();
        times := times - 1;
      }
    }
  }

  // ---------- the scanner ----------

  /** The value is None where the transaction's decimal string does not parse. */
  datatype Transaction = Transaction(value: Option<int>, receiver: Bytes)

  type HyperBlock = seq<Transaction>

  /** What is tracked: the addresses of interest and the least amount that counts. */
  datatype Rules = Rules(trackable: Bytes -> bool, minimum: int)

  predicate IsDeposit(rules: Rules, tx: Transaction) {
    tx.value.Some? && rules.trackable(tx.receiver) && tx.value.value >= rules.minimum
  }

  /** The receivers of the deposits of a block, in order. */
  function Deposits(rules: Rules, block: HyperBlock): seq<Bytes> {
    if block == [] then []
    else
      var last := block[|block| - 1];
      Deposits(rules, block[..|block| - 1]) + if IsDeposit(rules, last) then [last.receiver] else []
  }

  /** The deposits of the first blocks processed after the starting nonce; the k-th of them is start + k, wrapped. */
  function DepositsOfFirst(rules: Rules, chain: uint64 -> HyperBlock, start: uint64, count: nat): seq<Bytes> {
    if count == 0 then []
    else DepositsOfFirst(rules, chain, start, count - 1) + Deposits(rules, chain(CounterAfter(start, count)))
  }

  /** The deposits of the blocks after nonce lo up to nonce hi, in block order. */
  function DepositsBetween(rules: Rules, chain: uint64 -> HyperBlock, lo: uint64, hi: uint64): seq<Bytes>
    requires lo <= hi
    decreases hi
  {
    if lo == hi then [] else DepositsBetween(rules, chain, lo, hi - 1) + Deposits(rules, chain(hi))
  }

  /** A transaction with a valid value of at least the minimum, to a trackable receiver. */
  ghost predicate DepositsTo(rules: Rules, tx: Transaction, a: Bytes) {
    tx.receiver == a && tx.value.Some? && tx.value.value >= rules.minimum && rules.trackable(a)
  }

  ghost predicate BlockDepositsTo(rules: Rules, block: HyperBlock, a: Bytes) {
    exists i :: 0 <= i < |block| && DepositsTo(rules, block[i], a)
  }

  lemma {:induction false} DepositsOfBlock(rules: Rules, block: HyperBlock, a: Bytes)
    ensures a in Deposits(rules, block) <==> BlockDepositsTo(rules, block, a)
  {
    if block != [] {
      var init, last := block[..|block| - 1], block[|block| - 1];
      DepositsOfBlock(rules, init, a);
      if BlockDepositsTo(rules, init, a) {
        var i :| 0 <= i < |init| && DepositsTo(rules, init[i], a);
        assert DepositsTo(rules, block[i], a);
      }
      if BlockDepositsTo(rules, block, a) {
        var i :| 0 <= i < |block| && DepositsTo(rules, block[i], a);
        if i < |init| { assert DepositsTo(rules, init[i], a); }
      }
    }
  }

  /** The receivers of the deposits of the blocks after lo up to hi. */
  lemma {:induction false} DepositsOfBlocks(rules: Rules, chain: uint64 -> HyperBlock, lo: uint64, hi: uint64, a: Bytes)
    requires lo <= hi
    ensures a in DepositsBetween(rules, chain, lo, hi) <==>
            exists n: uint64 :: lo < n <= hi && BlockDepositsTo(rules, chain(n), a)
    decreases hi
  {
    if lo < hi {
      DepositsOfBlocks(rules, chain, lo, hi - 1, a);
      DepositsOfBlock(rules, chain(hi), a);
    }
  }

  lemma {:induction false} FirstAreBetween(rules: Rules, chain: uint64 -> HyperBlock, start: uint64, count: nat)
    requires start + count < TWO_64
    ensures DepositsOfFirst(rules, chain, start, count) == DepositsBetween(rules, chain, start, start + count)
  {
    if count > 0 {
      FirstAreBetween(rules, chain, start, count - 1);
      assert CounterAfter(start, count) == start + count;
    }
  }

  /** The blocks processed are start + 1, start + 2, ... themselves if and only if the nonces did not wrap. */
  lemma ProcessedInOrderIff(start: uint64, count: nat)
    ensures (forall k: nat :: 0 < k <= count ==> CounterAfter(start, k) == start as int + k) <==>
            count == 0 || start + count < TWO_64
  {
    if start + count < TWO_64 {
      forall k: nat | 0 < k <= count ensures CounterAfter(start, k) == start as int + k { }
    } else {
      assert CounterAfter(start, count) < start as int + count;
    }
  }

  datatype TrackerError = InvalidTransactionValue | NonceUnavailable | BlockUnavailable(nonce: uint64)

  /** A tick returns, without or with an error, or its loop runs on. */
  datatype Outcome = Finished | Failed(error: TrackerError) | Running

  /** A tick sees some network nonce, or a failure, and some of the blocks; a drain is a call from outside. */
  datatype Step = Tick(network: Option<uint64>, available: uint64 -> bool, turns: nat) | Drain

  class Tracker {
    const rules: Rules
    const accumulator: AddressesAccumulator
    var lastProcessed: uint64
    ghost const start: uint64
    ghost var count: nat

    /** Between ticks, `count` blocks after the starting nonce have been processed, once each and in order. */
    ghost predicate Valid(chain: uint64 -> HyperBlock)
      reads this, accumulator
    {
      && accumulator.Valid() && lastProcessed == CounterAfter(start, count)
      && Pushes(accumulator.log) == DepositsOfFirst(rules, chain, start, count)
    }

    constructor (rules: Rules, stored: uint64, ghost chain: uint64 -> HyperBlock)
      ensures Valid(chain) && this.rules == rules && start == lastProcessed == stored && count == 0
      ensures fresh(accumulator)
    {
      this.rules := rules;
      accumulator := new AddressesAccumulator();
      lastProcessed, start, count := stored, stored, 0;
    }

    method ProcessTransaction(tx: Transaction) returns (err: Option<TrackerError>)
      requires accumulator.Valid()
      modifies accumulator
      ensures accumulator.Valid()
      ensures Pushes(accumulator.log) ==
              Pushes(old(accumulator.log)) + if IsDeposit(rules, tx) then [tx.receiver] else []
      ensures err == if tx.value.None? then Some(InvalidTransactionValue) else None
    {
      accumulator.Interfere();
      if tx.value.None? { return Some(InvalidTransactionValue); }
      if !rules.trackable(tx.receiver) { return None; }
      if tx.value.value < rules.minimum { return None; }
      accumulator.Push(tx.receiver);
      return None;
    }

    method ProcessHyperBlock(block: HyperBlock)
      requires accumulator.Valid()
      modifies accumulator
      ensures accumulator.Valid()
      ensures Pushes(accumulator.log) == Pushes(old(accumulator.log)) + Deposits(rules, block)
    {
      for i := 0 to |block|
        invariant accumulator.Valid()
        invariant Pushes(accumulator.log) == Pushes(old(accumulator.log)) + Deposits(rules, block[..i])
      {
        assert block[..i + 1][..i] == block[..i];
        var err := ProcessTransaction(block[i]);
      }
      assert block[..|block|] == block;
    }

    /** One turn of a tick: the next block is processed and its nonce stored. */
    method ProcessNext(chain: uint64 -> HyperBlock, nonce: uint64)
      requires Valid(chain) && nonce == CounterAfter(start, count + 1)
      modifies this, accumulator
      ensures Valid(chain) && count == old(count) + 1
    {
      ProcessHyperBlock(chain(nonce));
      lastProcessed, count := nonce, count + 1;
    }

    /** The loop of a tick. */
    method ProcessUpTo(chain: uint64 -> HyperBlock, network: uint64, available: uint64 -> bool, turns: nat)
      returns (outcome: Outcome)
      requires Valid(chain)
      modifies this, accumulator
      ensures Valid(chain) && old(count) <= count <= old(count) + turns
      ensures AllProcessable(start, old(count), count, network, available)
      ensures Stops(outcome, CounterAfter(start, count + 1), network, available)
      ensures outcome.Running? ==> count == old(count) + turns
    {
      OneMoreTurn(start, count);
      var nonce, left := WrapUint64(lastProcessed as int + 1), turns;
      while nonce <= network && left > 0
        invariant Valid(chain) && nonce == CounterAfter(start, count + 1)
        invariant 0 <= left <= turns && count == old(count) + (turns - left)
        invariant AllProcessable(start, old(count), count, network, available)
        decreases left
      {
        if !available(nonce) { return Failed(BlockUnavailable(nonce)); }
        OneMoreTurn(start, count + 1);
        ProcessNext(chain, nonce);
        nonce, left := WrapUint64(nonce as int + 1), left - 1;
      }
      return if nonce > network then Finished else Running;
    }

    /**
     One tick: on from the stored nonce, block by block, until the network nonce is passed or a block cannot be
     fetched, and no further. With a network nonce of 2^64 - 1 it does not finish.
     */
    method FetchAndProcessHyperBlocks(chain: uint64 -> HyperBlock, network: Option<uint64>, available: uint64 -> bool,
                                      turns: nat)
      returns (outcome: Outcome)
      requires Valid(chain)
      modifies this, accumulator
      ensures Valid(chain) && old(count) <= count <= old(count) + turns
      ensures network.None? ==> outcome == Failed(NonceUnavailable) && count == old(count)
      ensures network.Some? ==>
        && AllProcessable(start, old(count), count, network.value, available)
        && Stops(outcome, CounterAfter(start, count + 1), network.value, available)
        && (outcome.Running? ==> count == old(count) + turns)
    {
      if network.None? { return Failed(NonceUnavailable); }
      outcome := ProcessUpTo(chain, network.value, available, turns);
    }

    method GetLatestTrackedAddresses(ghost chain: uint64 -> HyperBlock) returns (batch: seq<Bytes>)
      requires Valid(chain)
      modifies accumulator
      ensures Valid(chain) && accumulator.log == old(accumulator.log) + [Popped(batch)]
      ensures IsListOf(batch, old(accumulator.addresses))
    {
      batch := accumulator.Pop();
    }

    method TakeStep(chain: uint64 -> HyperBlock, step: Step)
      requires Valid(chain)
      modifies this, accumulator
      ensures Valid(chain) && count >= old(count)
      ensures start + old(count) < MAX_UINT64 && StepBelowTop(step) ==> start + count < MAX_UINT64
    {
      match step {
        case Tick(network, available, turns) =>
          var outcome := FetchAndProcessHyperBlocks(chain, network, available, turns);
          if network.Some? && network.value < MAX_UINT64 && start + old(count) < MAX_UINT64 {
            StaysBelowTop(start, old(count), count, network.value, available);
          }
        case Drain =>
          var batch := GetLatestTrackedAddresses(chain);
      }
    }

    /**
     Any run of ticks and drains, with drains also in the middle of ticks: what was popped and what is still held are
     together exactly the receivers of the deposits in the blocks processed so far. While no network nonce is
     2^64 - 1, those are the blocks after the starting nonce up to the stored one.
     */
    method Run(chain: uint64 -> HyperBlock, steps: seq<Step>)
      requires Valid(chain)
      modifies this, accumulator
      ensures Valid(chain) && count >= old(count)
      ensures PoppedSoFar(accumulator.log) + accumulator.addresses ==
              set a | a in DepositsOfFirst(rules, chain, start, count)
      ensures start + old(count) < MAX_UINT64 && BelowTop(steps) ==>
        && start + count < MAX_UINT64 && lastProcessed == start + count
        && PoppedSoFar(accumulator.log) + accumulator.addresses ==
           set a | a in DepositsBetween(rules, chain, start, lastProcessed)
      ensures start + old(count) < MAX_UINT64 && BelowTop(steps) ==>
        forall a :: a in PoppedSoFar(accumulator.log) + accumulator.addresses <==>
          exists n: uint64 :: start < n <= lastProcessed && BlockDepositsTo(rules, chain(n), a)
    {
      for i := 0 to |steps|
        invariant Valid(chain) && count >= old(count)
        invariant start + old(count) < MAX_UINT64 && BelowTop(steps) ==> start + count < MAX_UINT64
      {
        TakeStep(chain, steps[i]);
      }
      EndOfRun(accumulator.log, rules, chain, start, count);
      if start + count < MAX_UINT64 {
        forall a ensures a in DepositsBetween(rules, chain, start, lastProcessed) <==>
                         exists n: uint64 :: start < n <= lastProcessed && BlockDepositsTo(rules, chain(n), a)
        {
          DepositsOfBlocks(rules, chain, start, lastProcessed, a);
        }
      }
    }
  }

  /** Every block processed after the first `before` was within the network nonce and could be fetched. */
  ghost predicate AllProcessable(start: uint64, before: nat, count: nat, network: uint64, available: uint64 -> bool) {
    forall k: nat {:trigger Processable(start, k, network, available)} ::
      before < k <= count ==> Processable(start, k, network, available)
  }

  ghost predicate Processable(start: uint64, k: nat, network: uint64, available: uint64 -> bool) {
    CounterAfter(start, k) <= network && available(CounterAfter(start, k))
  }

  lemma EndOfRun(log: seq<Op>, rules: Rules, chain: uint64 -> HyperBlock, start: uint64, count: nat)
    requires PopsExact(log) && Pushes(log) == DepositsOfFirst(rules, chain, start, count)
    ensures PoppedSoFar(log) + Held(log) == set a | a in DepositsOfFirst(rules, chain, start, count)
    ensures start + count < MAX_UINT64 ==>
      && CounterAfter(start, count) == start + count
      && DepositsOfFirst(rules, chain, start, count) == DepositsBetween(rules, chain, start, start + count)
  {
    PoppedPlusHeld(log);
    if start + count < MAX_UINT64 { FirstAreBetween(rules, chain, start, count); }
  }

  /** Where a tick stops, given the nonce it would process next. */
  ghost predicate Stops(outcome: Outcome, next: uint64, network: uint64, available: uint64 -> bool) {
    match outcome
    case Finished => next > network
    case Failed(error) => next <= network && error == BlockUnavailable(next) && !available(next)
    case Running => next <= network
  }

  ghost predicate StepBelowTop(step: Step) {
    step.Tick? && step.network.Some? ==> step.network.value < MAX_UINT64
  }

  ghost predicate BelowTop(steps: seq<Step>) {
    forall i :: 0 <= i < |steps| ==> StepBelowTop(steps[i])
  }

  /** A tick below the top of the range does not wrap. */
  lemma StaysBelowTop(start: uint64, before: nat, count: nat, network: uint64, available: uint64 -> bool)
    requires start + before < MAX_UINT64 && network < MAX_UINT64 && before <= count
    requires AllProcessable(start, before, count, network, available)
    ensures start + count < MAX_UINT64
  {
    assert CounterAfter(start, MAX_UINT64 - start) == MAX_UINT64;
    assert !Processable(start, MAX_UINT64 - start, network, available);
  }

  /**
   Given turns enough and no failing block, a tick that starts below the top of the range ends by itself if and only if
   the network nonce is not 2^64 - 1, and then the stored nonce is the network nonce, or unchanged where that is lower.
   */
  lemma TickEndsIff(start: uint64, before: nat, count: nat, network: uint64, available: uint64 -> bool, turns: nat,
                    outcome: Outcome)
    requires start + before < MAX_UINT64 && before <= count && turns > network && !outcome.Failed?
    requires AllProcessable(start, before, count, network, available)
    requires Stops(outcome, CounterAfter(start, count + 1), network, available)
    requires outcome.Running? ==> count == before + turns
    ensures outcome.Finished? <==> network < MAX_UINT64
    ensures outcome.Finished? ==> start + count == if start + before < network then network else start + before
  {
    if network < MAX_UINT64 {
      StaysBelowTop(start, before, count, network, available);
      assert CounterAfter(start, count + 1) == start + count + 1;
      assert count > before ==>
        CounterAfter(start, count) == start + count && Processable(start, count, network, available);
    }
  }
}
