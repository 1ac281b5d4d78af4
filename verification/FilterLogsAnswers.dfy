/** What a log query answers: the wanted events of the blocks of its range, or the first failure on the way. */
module FilterLogsAnswers {
  import opened GoTypes
  import opened EventFilter
  import opened FilterLogs
  import opened FilterLogsRuns

  ghost predicate Readable(net: Network, shard: uint32, n: uint64) {
    && net.byNonce(shard, n).Some? && net.parse(net.byNonce(shard, n).value).Some?
    && net.parse(net.byNonce(shard, n).value).value.error == []
  }

  ghost function BlockAt(net: Network, shard: uint32, n: uint64): seq<seq<Logs>>
    requires Readable(net, shard, n)
  {
    net.parse(net.byNonce(shard, n).value).value.block.miniBlocks
  }

  ghost predicate FailsWith(net: Network, shard: uint32, n: uint64, e: Error) {
    match net.byNonce(shard, n)
    case None => e == FetchFailed
    case Some(buff) =>
      match net.parse(buff)
      case None => e == NotJson
      case Some(response) => response.error != [] && e == BlockError(response.error)
  }

  datatype Place = Place(nonce: uint64, position: Position)

  predicate Precedes(p: Place, q: Place) {
    p.nonce < q.nonce || (p.nonce == q.nonce && Before(p.position, q.position))
  }

  ghost predicate StandsAt(net: Network, shard: uint32, e: Event, p: Place) {
    && Readable(net, shard, p.nonce) && IsEvent(BlockAt(net, shard, p.nonce), p.position)
    && e == EventAt(BlockAt(net, shard, p.nonce), p.position)
  }

  ghost predicate WantedFrom(net: Network, shard: uint32, lo: nat, hi: uint64, f: FilterQuery, p: Place) {
    && lo <= p.nonce <= hi && Readable(net, shard, p.nonce)
    && WantedAt(BlockAt(net, shard, p.nonce), f, p.position)
  }

  /**
   Every wanted event of the blocks lo..hi stands in the result, nothing else does, and they stand in the order of the
   blocks and of their places within the blocks.
   */
  ghost predicate PicksFrom(r: seq<Event>, order: seq<Place>, net: Network, shard: uint32, lo: nat, hi: uint64,
                            f: FilterQuery)
  {
    && |order| == |r| && (forall m, n :: 0 <= m < n < |order| ==> Precedes(order[m], order[n]))
    && (forall n :: 0 <= n < |r| ==> StandsAt(net, shard, r[n], order[n]))
    && (forall p :: p in order <==> WantedFrom(net, shard, lo, hi, f, p))
  }

  ghost function PlacesIn(n: uint64, order: seq<Position>): (places: seq<Place>)
    ensures |places| == |order| && forall k :: 0 <= k < |order| ==> places[k] == Place(n, order[k])
  {
    seq(|order|, k requires 0 <= k < |order| => Place(n, order[k]))
  }

  /** A block's own events, before those of the blocks after it. */
  lemma BlockFirst(net: Network, shard: uint32, lo: uint64, hi: uint64, f: FilterQuery,
                   events: seq<Event>, order: seq<Position>, rest: seq<Event>, later: seq<Place>)
    requires Readable(net, shard, lo) && lo <= hi && Picks(events, order, BlockAt(net, shard, lo), f)
    requires PicksFrom(rest, later, net, shard, lo + 1, hi, f)
    ensures PicksFrom(events + rest, PlacesIn(lo, order) + later, net, shard, lo, hi, f)
  {
    var first := PlacesIn(lo, order);
    var all := first + later;
    forall p ensures p in all <==> WantedFrom(net, shard, lo, hi, f, p) {
      assert p in all <==> p in first || p in later;
      assert p in first <==> p.nonce == lo && p.position in order by {
        if p.nonce == lo && p.position in order {
          var k :| 0 <= k < |order| && order[k] == p.position;
          assert first[k] == p;
        }
      }
    }
    forall m, n | 0 <= m < n < |all| ensures Precedes(all[m], all[n]) {
      if n >= |first| { assert all[n] == later[n - |first|] && later[n - |first|] in later; }
    }
    forall n | 0 <= n < |all| ensures StandsAt(net, shard, (events + rest)[n], all[n]) {
      if n >= |first| { assert all[n] == later[n - |first|]; }
    }
  }

  /** A scan that succeeds has read every block of its range and returns exactly their wanted events. */
  lemma {:induction false} ScanPicks(net: Network, shard: uint32, start: nat, end: uint64, f: FilterQuery)
    returns (order: seq<Place>)
    requires Scan(net, shard, start, end, f).Ok?
    ensures PicksFrom(Scan(net, shard, start, end, f).value, order, net, shard, start, end, f)
    ensures forall n: uint64 :: start <= n <= end ==> Readable(net, shard, n)
    decreases end as int - start
  {
    if start > end {
      order := [];
    } else {
      var block := OrderOfBlock(BlockAt(net, shard, start), f);
      var later := ScanPicks(net, shard, start + 1, end, f);
      var events := BlockLogs(net, shard, start, f).value;
      BlockFirst(net, shard, start, end, f, events, block, Scan(net, shard, start + 1, end, f).value, later);
      order := PlacesIn(start, block) + later;
    }
  }

  /** A scan that fails reports the failure of the first block of its range that cannot be read. */
  lemma {:induction false} ScanFails(net: Network, shard: uint32, start: nat, end: uint64, f: FilterQuery)
    returns (n: uint64)
    requires Scan(net, shard, start, end, f).Err?
    ensures start <= n <= end && FailsWith(net, shard, n, Scan(net, shard, start, end, f).error)
    ensures forall m: uint64 :: start <= m < n ==> Readable(net, shard, m)
    decreases end as int - start
  {
    if BlockLogs(net, shard, start, f).Err? {
      n := start;
    } else {
      n := ScanFails(net, shard, start + 1, end, f);
    }
  }

  ghost predicate Answered(answer: Result<seq<Event>, Error>, net: Network, shard: uint32, start: uint64, end: uint64,
                           f: FilterQuery)
  {
    match answer
    case Ok(r) =>
      && (forall n: uint64 :: start <= n <= end ==> Readable(net, shard, n))
      && exists order :: PicksFrom(r, order, net, shard, start, end, f)
    case Err(e) =>
      exists n: uint64 :: start <= n <= end && FailsWith(net, shard, n, e) &&
        forall m: uint64 :: start <= m < n ==> Readable(net, shard, m)
  }

  lemma ScanAnswers(net: Network, shard: uint32, start: uint64, end: uint64, f: FilterQuery)
    ensures Answered(Scan(net, shard, start, end, f), net, shard, start, end, f)
  {
    if Scan(net, shard, start, end, f).Ok? {
      var order := ScanPicks(net, shard, start, end, f);
    } else {
      var n := ScanFails(net, shard, start, end, f);
    }
  }

  /**
   FilterLogs over shards whose responses agree, with any coherent cache and any eviction: with an end below 2^64 - 1 it
   returns exactly the wanted events of the blocks of its range, in order, or the failure of the first unreadable one.
   */
  lemma FilterLogsAnswers(net: Network, shards: set<uint32>, q: Query, cache: Cache)
    requires NoncesAgree(net, shards) && HashesAgree(net, shards) && q.shard in shards && Coherent(net, shards, cache)
    requires Range(net, q).Ok? && Range(net, q).value.1 < MAX_UINT64 && q.turns > 500
    ensures
      var ((start, end), p) := (Range(net, q).value, Cached(net, q, cache).0);
      p.Returned? && Answered(p.answer, net, q.shard, start, end, q.filter)
  {
    QueryAgrees(net, shards, q, cache);
    QueryReturnsIff(net, q);
    var (start, end) := Range(net, q).value;
    ScanAnswers(net, q.shard, start, end, q.filter);
    if start > end { assert Scan(net, q.shard, start, end, q.filter) == Ok([]); }
  }
}
