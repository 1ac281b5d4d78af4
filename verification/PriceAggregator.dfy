/** The price aggregator: prices gathered from concurrent fetchers in any order, and their median over the reals. */
module PriceAggregator {
  import opened GoTypes

  datatype AggregatorError = NotEnoughResponses | InvalidNumOfElements

  // ---------- sorting ----------

  ghost predicate Sorted(s: seq<real>) {
    forall i, j :: 0 <= i <= j < |s| ==> s[i] <= s[j]
  }

  function Insert(x: real, s: seq<real>): seq<real> {
    if s == [] || x <= s[0] then [x] + s else [s[0]] + Insert(x, s[1..])
  }

  function Sort(s: seq<real>): seq<real> {
    if s == [] then [] else Insert(s[0], Sort(s[1..]))
  }

  ghost predicate AtLeast(bound: real, s: seq<real>) {
    forall i :: 0 <= i < |s| ==> bound <= s[i]
  }

  lemma {:induction false} InsertAtLeast(bound: real, x: real, s: seq<real>)
    requires bound <= x && AtLeast(bound, s)
    ensures AtLeast(bound, Insert(x, s))
  {
    if s != [] && x > s[0] {
      InsertAtLeast(bound, x, s[1..]);
    }
  }

  lemma {:induction false} InsertSorts(x: real, s: seq<real>)
    requires Sorted(s)
    ensures Sorted(Insert(x, s))
  {
    if s != [] && x > s[0] {
      InsertSorts(x, s[1..]);
      InsertAtLeast(s[0], x, s[1..]);
    }
  }

  lemma {:induction false} InsertAdds(x: real, s: seq<real>)
    ensures multiset(Insert(x, s)) == multiset(s) + multiset{x}
  {
    if s == [] || x <= s[0] {
      assert multiset([x] + s) == multiset{x} + multiset(s);
    } else {
      InsertAdds(x, s[1..]);
      assert s == [s[0]] + s[1..];
    }
  }

  lemma {:induction false} SortSorts(s: seq<real>)
    ensures Sorted(Sort(s)) && multiset(Sort(s)) == multiset(s)
  {
    if s != [] {
      SortSorts(s[1..]);
      InsertSorts(s[0], Sort(s[1..]));
      InsertAdds(s[0], Sort(s[1..]));
      assert s == [s[0]] + s[1..];
    }
  }

  lemma HeadIsLeast(s: seq<real>, x: real)
    requires Sorted(s) && x in multiset(s)
    ensures s != [] && s[0] <= x
  {
  }

  lemma TailOf(s: seq<real>)
    requires s != [] && Sorted(s)
    ensures Sorted(s[1..]) && multiset(s[1..]) == multiset(s) - multiset{s[0]}
  {
    assert s == [s[0]] + s[1..];
  }

  lemma HeadsAgree(s: seq<real>, t: seq<real>)
    requires Sorted(s) && Sorted(t) && multiset(s) == multiset(t) && s != []
    ensures t != [] && s[0] == t[0]
  {
    assert s[0] in multiset(s);
    HeadIsLeast(t, s[0]);
    assert t[0] in multiset(t);
    HeadIsLeast(s, t[0]);
  }

  lemma {:induction false} SortedIsUnique(s: seq<real>, t: seq<real>)
    requires Sorted(s) && Sorted(t) && multiset(s) == multiset(t)
    ensures s == t
  {
    if s == [] {
      assert |multiset(t)| == 0;
    } else {
      HeadsAgree(s, t);
      TailOf(s);
      TailOf(t);
      SortedIsUnique(s[1..], t[1..]);
      assert s == [s[0]] + s[1..] && t == [t[0]] + t[1..];
    }
  }

  /** Sorting forgets the order. */
  lemma SortOfPermutation(s: seq<real>, t: seq<real>)
    requires multiset(s) == multiset(t)
    ensures Sort(s) == Sort(t)
  {
    SortSorts(s);
    SortSorts(t);
    SortedIsUnique(Sort(s), Sort(t));
  }

  /** The library's sort.Float64s, in place. */
  method SortFloat64s(nums: array<real>)
    modifies nums
    ensures nums[..] == Sort(old(nums[..])) && Sorted(nums[..]) && multiset(nums[..]) == multiset(old(nums[..]))
  {
    var sorted := Sort(nums[..]);
    SortSorts(nums[..]);
    assert |multiset(sorted)| == |sorted| && |multiset(nums[..])| == nums.Length;
    forall i | 0 <= i < nums.Length {
      nums[i] := sorted[i];
    }
    assert nums[..] == sorted;
  }

  // ---------- the median ----------

  /** The middle element of the sorted prices, or the mean of the two middle ones. */
  function Median(s: seq<real>): real
    requires s != []
  {
    SortSorts(s);
    var t := Sort(s);
    assert |multiset(t)| == |t| && |multiset(s)| == |s|;
    if |t| % 2 != 0 then t[|t| / 2] else (t[|t| / 2 - 1] + t[|t| / 2]) / 2.0
  }

  /** Sorted, the prices have it in the middle or, where they are even in number, the middle two around it. */
  ghost predicate IsMedian(m: real, s: seq<real>) {
    exists t :: Sorted(t) && multiset(t) == multiset(s) && InTheMiddle(m, t)
  }

  ghost predicate InTheMiddle(m: real, t: seq<real>) {
    t != [] && if |t| % 2 == 1 then m == t[(|t| - 1) / 2] else m + m == t[|t| / 2 - 1] + t[|t| / 2]
  }

  lemma MedianIsCentral(s: seq<real>)
    requires s != []
    ensures IsMedian(Median(s), s)
  {
    SortSorts(s);
    assert |multiset(Sort(s))| == |multiset(s)| == |s|;
    assert InTheMiddle(Median(s), Sort(s));
  }

  method ComputeMedian(nums: array<real>) returns (r: Result<real, AggregatorError>)
    modifies nums
    ensures nums.Length == 0 ==> r == Err(InvalidNumOfElements)
    ensures nums.Length > 0 ==> r == Ok(Median(old(nums[..]))) && nums[..] == Sort(old(nums[..]))
    ensures nums.Length > 0 ==> r.Ok? && IsMedian(r.value, old(nums[..]))
  {
    if nums.Length < 1 { return Err(InvalidNumOfElements); }
    MedianIsCentral(nums[..]);
    SortFloat64s(nums);
    var mid := nums.Length / 2;
    if nums.Length % 2 != 0 {
      return Ok(nums[mid]);
    }
    return Ok((nums[mid - 1] + nums[mid]) / 2.0);
  }

  /** How many of the prices lie in [lo, hi]. */
  function Inside(s: seq<real>, lo: real, hi: real): nat {
    if s == [] then 0 else Inside(s[1..], lo, hi) + if lo <= s[0] <= hi then 1 else 0
  }

  lemma {:induction false} InsideOfInsert(x: real, s: seq<real>, lo: real, hi: real)
    ensures Inside(Insert(x, s), lo, hi) == Inside([x] + s, lo, hi)
  {
    assert ([x] + s)[1..] == s;
    if s != [] && x > s[0] {
      InsideOfInsert(x, s[1..], lo, hi);
      assert ([s[0]] + Insert(x, s[1..]))[1..] == Insert(x, s[1..]);
      assert ([x] + s[1..])[1..] == s[1..];
    }
  }

  lemma {:induction false} InsideOfSort(s: seq<real>, lo: real, hi: real)
    ensures Inside(Sort(s), lo, hi) == Inside(s, lo, hi)
  {
    if s != [] {
      InsideOfSort(s[1..], lo, hi);
      InsideOfInsert(s[0], Sort(s[1..]), lo, hi);
      assert ([s[0]] + Sort(s[1..]))[1..] == Sort(s[1..]);
    }
  }

  /** At most the first k can be inside when none of the others is. */
  lemma {:induction false} InsidePrefix(s: seq<real>, k: nat, lo: real, hi: real)
    requires k <= |s| && forall i :: k <= i < |s| ==> !(lo <= s[i] <= hi)
    ensures Inside(s, lo, hi) <= k
  {
    if s != [] {
      InsidePrefix(s[1..], if k > 0 then k - 1 else 0, lo, hi);
    }
  }

  /** At most the others can be inside when none of the first k is. */
  lemma {:induction false} InsideSuffix(s: seq<real>, k: nat, lo: real, hi: real)
    requires k <= |s| && forall i :: 0 <= i < k ==> !(lo <= s[i] <= hi)
    ensures Inside(s, lo, hi) <= |s| - k
  {
    if s != [] {
      InsideSuffix(s[1..], if k > 0 then k - 1 else 0, lo, hi);
    }
  }

  /** In a sorted list whose strict majority is inside, an element with no more than half on either side is inside. */
  lemma CentralIsInside(t: seq<real>, k: nat, lo: real, hi: real)
    requires Sorted(t) && k < |t| && 2 * Inside(t, lo, hi) > |t| && 2 * k <= |t| <= 2 * (k + 1)
    ensures lo <= t[k] <= hi
  {
    if t[k] > hi { InsidePrefix(t, k, lo, hi); }
    if t[k] < lo { InsideSuffix(t, k + 1, lo, hi); }
  }

  /** If a strict majority of the prices lies in [lo, hi], so does their median, however far off the others are. */
  lemma MajorityBoundsMedian(s: seq<real>, lo: real, hi: real)
    requires s != [] && 2 * Inside(s, lo, hi) > |s|
    ensures lo <= Median(s) <= hi
  {
    SortSorts(s);
    InsideOfSort(s, lo, hi);
    var t := Sort(s);
    assert |multiset(t)| == |t| && |multiset(s)| == |s|;
    CentralIsInside(t, |t| / 2, lo, hi);
    if |t| % 2 == 0 { CentralIsInside(t, |t| / 2 - 1, lo, hi); }
  }

  // ---------- gathering the prices ----------

  /** The successful prices, in the order of the fetchers. */
  function Successes(results: seq<Option<real>>): seq<real> {
    if results == [] then []
    else
      Successes(results[..|results| - 1]) +
      match results[|results| - 1] case Some(price) => [price] case None => []
  }

  /** The indices of the successful fetchers, in order, and their prices. */
  ghost predicate ListsSuccesses(prices: seq<real>, order: seq<nat>, results: seq<Option<real>>) {
    && |order| == |prices| && (forall i, j :: 0 <= i < j < |order| ==> order[i] < order[j])
    && (forall k :: 0 <= k < |prices| ==> order[k] < |results| && results[order[k]] == Some(prices[k]))
    && (forall i: nat :: i in order <==> i < |results| && results[i].Some?)
  }

  lemma ListOneMore(prices: seq<real>, order: seq<nat>, results: seq<Option<real>>) returns (order': seq<nat>)
    requires results != [] && ListsSuccesses(prices, order, results[..|results| - 1])
    ensures var last := results[|results| - 1];
      ListsSuccesses(prices + if last.Some? then [last.value] else [], order', results)
  {
    var n := |results| - 1;
    forall k | 0 <= k < |order| ensures order[k] < n { assert order[k] in order; }
    if results[n].Some? {
      order' := order + [n];
    } else {
      order' := order;
      assert prices + [] == prices;
    }
    forall i: nat ensures i in order' <==> i < |results| && results[i].Some? {
      assert i in order <==> i < n && results[..n][i].Some?;
    }
  }

  /** Exactly the successful prices are gathered, each once. */
  lemma {:induction false} SuccessesAreListed(results: seq<Option<real>>) returns (order: seq<nat>)
    ensures ListsSuccesses(Successes(results), order, results)
  {
    if results == [] {
      order := [];
    } else {
      var n := |results| - 1;
      order := SuccessesAreListed(results[..n]);
      order := ListOneMore(Successes(results[..n]), order, results);
    }
  }

  /** Too few prices are an error, and otherwise their median is the result. */
  ghost predicate Aggregates(r: Result<real, AggregatorError>, prices: seq<real>, minResults: nat) {
    if |prices| < minResults then r == Err(NotEnoughResponses)
    else if |prices| == 0 then r == Err(InvalidNumOfElements)
    else r.Ok? && IsMedian(r.value, prices)
  }

  function AggregatedPrice(results: seq<Option<real>>, minResults: nat): Result<real, AggregatorError> {
    var prices := Successes(results);
    if |prices| < minResults then Err(NotEnoughResponses)
    else if prices == [] then Err(InvalidNumOfElements)
    else Ok(Median(prices))
  }

  /** The prices of the fetchers in `done`, as a bag. */
  ghost function Gathered(results: seq<Option<real>>, done: set<nat>): multiset<real>
    requires forall i :: i in done ==> i < |results|
    decreases |results|
  {
    if results == [] then multiset{}
    else
      var n := |results| - 1;
      Gathered(results[..n], done - {n}) +
      if n in done && results[n].Some? then multiset{results[n].value} else multiset{}
  }

  lemma {:induction false} GatherOneMore(results: seq<Option<real>>, done: set<nat>, i: nat)
    requires (forall k :: k in done ==> k < |results|) && i < |results| && i !in done
    ensures Gathered(results, done + {i}) ==
            Gathered(results, done) + if results[i].Some? then multiset{results[i].value} else multiset{}
    decreases |results|
  {
    var n := |results| - 1;
    if i == n {
      assert done + {i} - {n} == done - {n};
    } else {
      assert done + {i} - {n} == done - {n} + {i};
      GatherOneMore(results[..n], done - {n}, i);
    }
  }

  lemma {:induction false} GatherNone(results: seq<Option<real>>)
    ensures Gathered(results, {}) == multiset{}
    decreases |results|
  {
    if results != [] {
      GatherNone(results[..|results| - 1]);
      assert {} - {|results| - 1} == {};
    }
  }

  /** The indices below n. */
  function UpTo(n: nat): (indices: set<nat>)
    ensures forall i: nat :: i in indices <==> i < n
  {
    if n == 0 then {} else UpTo(n - 1) + {n - 1}
  }

  lemma {:induction false} GatherAll(results: seq<Option<real>>)
    ensures Gathered(results, UpTo(|results|)) == multiset(Successes(results))
    decreases |results|
  {
    if results != [] {
      var n := |results| - 1;
      GatherAll(results[..n]);
      assert UpTo(n + 1) - {n} == UpTo(n);
    }
  }

  /** The goroutines append their prices under a lock, in the order in which they happen to finish. */
  method GatherPrices(results: seq<Option<real>>) returns (prices: seq<real>)
    ensures multiset(prices) == multiset(Successes(results))
  {
    prices := [];
    var running := UpTo(|results|);
    ghost var done: set<nat> := {};
    GatherNone(results);
    while running != {}
      invariant running <= UpTo(|results|) && done == UpTo(|results|) - running
      invariant multiset(prices) == Gathered(results, done)
      decreases running
    {
      var i :| i in running;
      GatherOneMore(results, done, i);
      if results[i].Some? { prices := prices + [results[i].value]; }
      running, done := running - {i}, done + {i};
    }
    assert done == UpTo(|results|);
    GatherAll(results);
  }

  lemma PermutationKeepsMedian(s: seq<real>, t: seq<real>)
    requires multiset(s) == multiset(t)
    ensures |s| == |t| && (s != [] ==> Median(s) == Median(t))
  {
    assert |multiset(s)| == |s| && |multiset(t)| == |t|;
    SortOfPermutation(s, t);
  }

  /** FetchPrice: whatever the order in which the fetchers finish, the result is the same. */
  method FetchPrice(results: seq<Option<real>>, minResults: nat) returns (r: Result<real, AggregatorError>)
    ensures r == AggregatedPrice(results, minResults)
    ensures exists prices, order :: ListsSuccesses(prices, order, results) && Aggregates(r, prices, minResults)
  {
    ghost var order := SuccessesAreListed(results);
    if Successes(results) != [] { MedianIsCentral(Successes(results)); }
    var prices := GatherPrices(results);
    PermutationKeepsMedian(prices, Successes(results));
    if |prices| < minResults { return Err(NotEnoughResponses); }
    var nums := new real[|prices|](i requires 0 <= i < |prices| => prices[i]);
    assert nums[..] == prices;
    r := ComputeMedian(nums);
  }
}
