/** The counter shared by the V1 and V2 address nonce handlers, and the sequence of nonces it hands out. */
module NonceCounter {
  import opened GoTypes

  datatype Counter = Counter(wasSet: bool, computed: uint64)

  /** getNonceUpdatingCurrent under the lock. The counter is not raised to the account nonce it may return. */
  function Step(c: Counter, account: uint64): (Counter, uint64) {
    if !c.wasSet then (Counter(true, account), account)
    else
      var computed := WrapUint64(c.computed as int + 1);
      (Counter(true, computed), Max(computed, account))
  }

  /** The nonces handed out for a sequence of fetched account nonces. */
  function Nonces(c: Counter, accounts: seq<uint64>): (nonces: seq<uint64>)
    ensures |nonces| == |accounts|
    decreases |accounts|
  {
    if accounts == [] then []
    else
      var (c', nonce) := Step(c, accounts[0]);
      [nonce] + Nonces(c', accounts[1..])
  }

  /** The counter after k more calls, wrapped. */
  function CountedTo(computed: uint64, k: nat): uint64 {
    WrapUint64(computed as int + k)
  }

  lemma CountOnce(computed: uint64, k: nat)
    ensures CountedTo(WrapUint64(computed as int + 1), k) == CountedTo(computed, k + 1)
  {
    assert computed < MAX_UINT64 || WrapUint64(computed as int + 1) == 0;
  }

  lemma {:induction false} NoncesOfSetCounter(c: Counter, accounts: seq<uint64>, k: nat)
    requires c.wasSet && k < |accounts|
    ensures Nonces(c, accounts)[k] == Max(CountedTo(c.computed, k + 1), accounts[k])
    decreases k
  {
    if k > 0 {
      NoncesOfSetCounter(Step(c, accounts[0]).0, accounts[1..], k - 1);
      CountOnce(c.computed, k);
    }
  }

  /** The k-th nonce after a first fetch a0 is max(a0 + k, the account nonce fetched for it), a0 + k wrapped. */
  lemma KthNonce(c: Counter, accounts: seq<uint64>, k: nat)
    requires !c.wasSet && k < |accounts|
    ensures Nonces(c, accounts)[k] == Max(CountedTo(accounts[0], k), accounts[k])
    ensures accounts[0] as int + k < TWO_64 ==> CountedTo(accounts[0], k) == accounts[0] as int + k
  {
    if k > 0 {
      NoncesOfSetCounter(Step(c, accounts[0]).0, accounts[1..], k - 1);
    }
  }

  ghost predicate Monotone(accounts: seq<uint64>) {
    forall i, j :: 0 <= i <= j < |accounts| ==> accounts[i] <= accounts[j]
  }

  /**
   Never below the account nonce; and while the chain nonce does not decrease, a later nonce is lower exactly when it is
   below the earlier count, for which the counter must have wrapped.
   */
  lemma NoncesFollowTheChain(c: Counter, accounts: seq<uint64>, i: nat, j: nat)
    requires !c.wasSet && i <= j < |accounts|
    ensures Nonces(c, accounts)[j] >= accounts[j]
    ensures Monotone(accounts) ==>
      (Nonces(c, accounts)[i] <= Nonces(c, accounts)[j] <==> CountedTo(accounts[0], i) <= Nonces(c, accounts)[j])
    ensures Monotone(accounts) && accounts[0] as int + j < TWO_64 ==>
      Nonces(c, accounts)[i] <= Nonces(c, accounts)[j]
  {
    KthNonce(c, accounts, i);
    KthNonce(c, accounts, j);
  }

  ghost predicate CountsFrom(nonces: seq<uint64>, first: int) {
    forall k: nat :: k < |nonces| ==> nonces[k] == first + k
  }

  ghost predicate NeverOvertakes(accounts: seq<uint64>, a0: uint64) {
    forall k: nat :: k < |accounts| ==> accounts[k] <= a0 as int + k
  }

  /**
   The nonces are a0, a0+1, a0+2, ... exactly when they end below 2^64 and no fetched account nonce overtakes the
   counter.
   */
  lemma NoncesAreConsecutive(c: Counter, accounts: seq<uint64>)
    requires !c.wasSet && accounts != []
    ensures CountsFrom(Nonces(c, accounts), accounts[0]) <==>
            accounts[0] as int + |accounts| <= TWO_64 && NeverOvertakes(accounts, accounts[0])
  {
    var nonces, a0 := Nonces(c, accounts), accounts[0];
    if CountsFrom(nonces, a0) {
      assert nonces[|nonces| - 1] == a0 as int + (|nonces| - 1);
      forall k: nat | k < |accounts| ensures accounts[k] <= a0 as int + k {
        KthNonce(c, accounts, k);
        assert nonces[k] == a0 as int + k;
      }
    }
    if a0 as int + |accounts| <= TWO_64 && NeverOvertakes(accounts, a0) {
      forall k: nat | k < |nonces| ensures nonces[k] == a0 as int + k {
        KthNonce(c, accounts, k);
        assert accounts[k] <= a0 as int + k;
      }
    }
  }

  /**
   On a monotone chain two calls share a nonce exactly when both fetched it, at or above both counts, or the later one
   got what the earlier count was, for which the counter must have wrapped.
   */
  lemma RepeatsExactly(c: Counter, accounts: seq<uint64>, i: nat, j: nat)
    requires !c.wasSet && i < j < |accounts| && Monotone(accounts)
    ensures
      var counted_i, counted_j := CountedTo(accounts[0], i), CountedTo(accounts[0], j);
      Nonces(c, accounts)[i] == Nonces(c, accounts)[j] <==>
        accounts[i] == accounts[j] >= Max(counted_i, counted_j) || counted_i == Nonces(c, accounts)[j]
    ensures accounts[0] as int + j < TWO_64 ==>
      (Nonces(c, accounts)[i] == Nonces(c, accounts)[j] <==> accounts[i] == accounts[j] >= accounts[0] as int + j)
  {
    KthNonce(c, accounts, i);
    KthNonce(c, accounts, j);
  }

  /** A counter that wraps falls back: three calls at account nonce 2^64 - 2 get that, the next, and that again. */
  lemma WrappedCounterFallsBack()
    ensures var a := MAX_UINT64 - 1; Nonces(Counter(false, 0), [a, a, a]) == [a, MAX_UINT64, a]
  {
    var a: uint64 := MAX_UINT64 - 1;
    KthNonce(Counter(false, 0), [a, a, a], 0);
    KthNonce(Counter(false, 0), [a, a, a], 1);
    KthNonce(Counter(false, 0), [a, a, a], 2);
  }

  /** A counter that is not set hands out what a new one would. */
  lemma UnsetIsNew(c: Counter, accounts: seq<uint64>)
    requires !c.wasSet
    ensures Nonces(c, accounts) == Nonces(Counter(false, 0), accounts)
  {
  }

  /** Otherwise nonces can repeat: with the chain at 9 while the counter is still at 6, 9 is handed out twice. */
  lemma OvertakenCounterRepeats()
    ensures Nonces(Counter(false, 0), [5, 9, 9]) == [5, 9, 9]
  {
    assert [5 as uint64, 9, 9][1..] == [9, 9];
    assert [9 as uint64, 9][1..] == [9];
    assert Nonces(Counter(true, 6), [9]) == [9];
    assert Nonces(Counter(true, 5), [9, 9]) == [9] + Nonces(Counter(true, 6), [9, 9][1..]);
  }
}
