/** The loop `for n := start; n <= end; n++` over uint64 values, whose counter wraps. */
module UpwardLoops {
  import opened GoTypes

  /** The counter after k turns. */
  function CounterAfter(start: uint64, k: nat): uint64 {
    WrapUint64(start + k)
  }

  lemma OneMoreTurn(start: uint64, k: nat)
    ensures WrapUint64(CounterAfter(start, k) as int + 1) == CounterAfter(start, k + 1)
  {
  }

  /** The loop's condition fails for the first time after exactly k turns. */
  ghost predicate EndsAfter(start: uint64, end: uint64, k: nat) {
    CounterAfter(start, k) > end && forall j: nat :: j < k ==> CounterAfter(start, j) <= end
  }

  /** The loop's condition holds before each of the first k turns and after the last of them. */
  ghost predicate GoesOn(start: uint64, end: uint64, k: nat) {
    forall j: nat :: j <= k ==> CounterAfter(start, j) <= end
  }

  /** Going on is going on from the next value of the counter. */
  lemma GoesOnStep(start: uint64, end: uint64, k: nat)
    requires start <= end
    ensures GoesOn(start, end, k) <==> k == 0 || GoesOn(CounterAfter(start, 1), end, k - 1)
  {
    var next := CounterAfter(start, 1);
    forall j: nat ensures CounterAfter(next, j) == CounterAfter(start, j + 1) {
      assert start + 1 == TWO_64 ==> next == 0;
    }
    if k > 0 {
      if GoesOn(start, end, k) {
        forall j: nat | j <= k - 1 ensures CounterAfter(next, j) <= end { assert CounterAfter(start, j + 1) <= end; }
      }
      if GoesOn(next, end, k - 1) {
        forall j: nat | j <= k ensures CounterAfter(start, j) <= end {
          if j > 0 { assert CounterAfter(next, j - 1) <= end; }
        }
      }
    }
  }

  /** A loop that starts makes end - start + 1 turns if and only if its end is not the largest uint64. */
  lemma TurnsOfLoop(start: uint64, end: uint64)
    requires start <= end
    ensures EndsAfter(start, end, end - start + 1) <==> end < MAX_UINT64
  {
    if end < MAX_UINT64 {
      forall j: nat | j < end - start + 1 ensures CounterAfter(start, j) <= end {
        assert start + j < TWO_64;
      }
    } else {
      assert start as int + (end - start + 1) == TWO_64;
    }
  }

  /** With the largest uint64 as its end the loop never ends by itself, and with any other end it always does. */
  lemma LoopEndsIff(start: uint64, end: uint64)
    ensures (exists k :: EndsAfter(start, end, k)) <==> end < MAX_UINT64
  {
    if end < MAX_UINT64 {
      if start <= end {
        TurnsOfLoop(start, end);
      } else {
        assert EndsAfter(start, end, 0);
      }
    }
  }
}
