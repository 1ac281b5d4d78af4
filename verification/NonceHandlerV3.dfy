/**
 The nonces a V3 address nonce handler gives to concurrent callers: a cached int64, -1 where it must be fetched again.
 */
module NonceHandlerV3 {
  import opened GoTypes
  import opened NonceCounter

  const INVALID: int64 := -1

  /** computeNonce under its lock: the cached nonce after the call, and the nonce handed out unless the fetch failed. */
  function ComputeNonce(nonce: int64, account: Option<uint64>): (int64, Option<uint64>) {
    if nonce == INVALID then
      if account.None? then (INVALID, None) else (ToInt64(account.value), Some(account.value))
    else
      var next := WrapInt64(nonce as int + 1);
      (next, Some(ToUint64(next)))
  }

  /** Any caller computing a nonce, or any caller reading the response to a transaction it sent. */
  datatype Event = Compute(caller: nat, account: Option<uint64>) | Respond(caller: nat, failed: bool)

  function NonceAfter(nonce: int64, e: Event): int64 {
    match e
    case Compute(_, account) => ComputeNonce(nonce, account).0
    case Respond(_, failed) => if failed then INVALID else nonce
  }

  /** The nonces handed out over a run, in order, whoever got them. */
  function Handed(nonce: int64, run: seq<Event>): seq<uint64>
    decreases |run|
  {
    if run == [] then []
    else
      var rest := Handed(NonceAfter(nonce, run[0]), run[1..]);
      if run[0].Compute? && ComputeNonce(nonce, run[0].account).1.Some?
      then [ComputeNonce(nonce, run[0].account).1.value] + rest
      else rest
  }

  ghost predicate NoInvalidation(run: seq<Event>) {
    forall i :: 0 <= i < |run| ==> run[i].Respond? ==> !run[i].failed
  }

  lemma {:induction false} CachedCountsOn(nonce: int64, run: seq<Event>)
    requires nonce != INVALID && NoInvalidation(run)
    requires ToUint64(nonce) as int + 1 + |Handed(nonce, run)| <= TWO_64
    ensures CountsFrom(Handed(nonce, run), ToUint64(nonce) as int + 1)
    decreases |run|
  {
    if run != [] {
      var next := NonceAfter(nonce, run[0]);
      var rest := Handed(next, run[1..]);
      if run[0].Compute? {
        assert ToUint64(next) == ToUint64(nonce) + 1;
        if next != INVALID {
          CachedCountsOn(next, run[1..]);
        } else {
          assert rest == [];
        }
      } else {
        CachedCountsOn(nonce, run[1..]);
      }
    }
  }

  /**
   Between two invalidations, however the callers interleave, the nonces handed out are first, first + 1, first + 2
   and so on, pairwise distinct, where `first` was fetched from the account; this as long as the block ends below
   2^64, and only then.
   */
  lemma {:induction false} EpochIsContiguous(run: seq<Event>)
    requires NoInvalidation(run) && Handed(INVALID, run) != []
    ensures var h := Handed(INVALID, run);
      && (h[0] as int + |h| <= TWO_64 <==> CountsFrom(h, h[0]))
      && (exists i :: 0 <= i < |run| && run[i].Compute? && run[i].account == Some(h[0]))
    decreases |run|
  {
    var h := Handed(INVALID, run);
    if CountsFrom(h, h[0]) { assert h[|h| - 1] == h[0] as int + (|h| - 1); }
    if run[0].Compute? && run[0].account.Some? {
      var first := run[0].account.value;
      if first as int + |h| <= TWO_64 {
        if first == MAX_UINT64 {
          assert |h| == 1;
        } else {
          CachedCountsOn(ToInt64(first), run[1..]);
          assert h[1..] == Handed(ToInt64(first), run[1..]);
        }
      }
    } else {
      EpochIsContiguous(run[1..]);
      var i :| 0 <= i < |run| - 1 && run[1..][i].Compute? && run[1..][i].account == Some(h[0]);
      assert run[i + 1] == run[1..][i];
    }
  }

  /** At the very top the cached nonce looks invalid: 2^64 - 1 is handed out twice without any failure. */
  lemma TopNonceRepeats()
    ensures Handed(INVALID, [Compute(0, Some(MAX_UINT64)), Compute(1, Some(MAX_UINT64))]) == [MAX_UINT64, MAX_UINT64]
  {
    var run := [Compute(0, Some(MAX_UINT64)), Compute(1, Some(MAX_UINT64))];
    assert run[1..] == [Compute(1, Some(MAX_UINT64))];
    assert Handed(INVALID, run[1..]) == [MAX_UINT64];
  }
}
