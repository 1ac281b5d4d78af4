/**
 The proxy's log query: resolving the block range in wrapping arithmetic and scanning the blocks for matching events,
 with a cache of raw block responses keyed by the block nonce only. The scanning loop may run for ever, so a
 query is followed for a given number of its turns.
 */
module FilterLogs {
  import opened GoTypes
  import opened UpwardLoops
  import opened EventFilter

  const MAXIMUM_BLOCKS_DELTA: uint64 := 500

  datatype Error = FetchFailed | NotJson | BlockError(message: Bytes) | ToBlockTooHigh | TooManyBlocks | NoRange

  /** An immutable network: the raw block responses by shard and nonce or hash, and what they parse to. */
  datatype Network = Network(
    byNonce: (uint32, uint64) -> Option<Bytes>,
    byHash: (uint32, Bytes) -> Option<Bytes>,
    parse: Bytes -> Option<BlockResponse>)

  // ---------- the block range ----------

  function CheckedRange(start: uint64, end: uint64): Result<(uint64, uint64), Error> {
    if WrapUint64(end as int - start) <= MAXIMUM_BLOCKS_DELTA then Ok((start, end)) else Err(TooManyBlocks)
  }

  function ResolveBlockRange(f: FilterQuery, latest: uint64): Result<(uint64, uint64), Error> {
    if f.toBlock.Some? && f.toBlock.value > latest then Err(ToBlockTooHigh)
    else
      match (f.fromBlock, f.toBlock)
      case (Some(start), Some(end)) => CheckedRange(start, end)
      case (Some(start), None) => CheckedRange(start, latest)
      case (None, Some(end)) => CheckedRange(0, end)
      case (None, None) => Err(NoRange)
  }

  /**
   An accepted range scans at most 501 blocks, all up to the latest. A range that runs backwards is accepted only where
   the subtraction wraps into the limit, and then it scans nothing.
   */
  lemma AcceptedRangeIsSmall(f: FilterQuery, latest: uint64)
    requires ResolveBlockRange(f, latest).Ok?
    ensures var (start, end) := ResolveBlockRange(f, latest).value;
      && end <= latest
      && (start <= end ==> end - start + 1 <= 501)
      && (start > end ==> start as int - end >= TWO_64 - 500)
  {
  }

  /**
   A range is taken over as it is given, from 0 or up to the latest block where an end is missing, if it has no more
   than 501 blocks; otherwise, with both ends missing or an end past the latest, it is refused.
   */
  lemma RangeIsExact(f: FilterQuery, latest: uint64)
    ensures
      var start: uint64 := if f.fromBlock.Some? then f.fromBlock.value else 0;
      var end: uint64 := if f.toBlock.Some? then f.toBlock.value else latest;
      && (ResolveBlockRange(f, latest) == Ok((start, end)) <==>
            && (f.fromBlock.Some? || f.toBlock.Some?) && end <= latest
            && (start <= end <= start + 500 || start as int - end >= TWO_64 - 500))
      && (ResolveBlockRange(f, latest).Ok? ==> ResolveBlockRange(f, latest) == Ok((start, end)))
      && (ResolveBlockRange(f, latest) == Err(ToBlockTooHigh) <==> end > latest)
      && (ResolveBlockRange(f, latest) == Err(NoRange) <==> f.fromBlock.None? && f.toBlock.None?)
  {
  }

  /** A query by hash is one for the block of the nonce inside the response, whatever else its filter says. */
  lemma HashRange(net: Network, q: Query, hash: Bytes)
    requires q.filter.blockHash == Some(hash)
    ensures match net.byHash(q.shard, hash)
      case None => Range(net, q) == Err(FetchFailed)
      case Some(buff) =>
        match net.parse(buff)
        case None => Range(net, q) == Err(NotJson)
        case Some(response) => Range(net, q) == Ok((response.block.nonce, response.block.nonce))
  {
  }

  // ---------- the query without a cache ----------

  function LogsOf(net: Network, buff: Bytes, f: FilterQuery): Result<seq<Event>, Error> {
    match net.parse(buff)
    case None => Err(NotJson)
    case Some(response) =>
      if response.error != [] then Err(BlockError(response.error))
      else Ok(Matching(EventsOf(response.block.miniBlocks), f))
  }

  function BlockLogs(net: Network, shard: uint32, nonce: uint64, f: FilterQuery): Result<seq<Event>, Error> {
    match net.byNonce(shard, nonce)
    case None => Err(FetchFailed)
    case Some(buff) => LogsOf(net, buff, f)
  }

  /** The matching events of the blocks start..end in order, or the first error on the way. */
  function Scan(net: Network, shard: uint32, start: nat, end: uint64, f: FilterQuery): Result<seq<Event>, Error>
    decreases end as int - start
  {
    if start > end then Ok([])
    else
      match BlockLogs(net, shard, start, f)
      case Err(e) => Err(e)
      case Ok(events) =>
        match Scan(net, shard, start + 1, end, f)
        case Err(e) => Err(e)
        case Ok(rest) => Ok(events + rest)
  }

  /** How far a query has come: it has returned, or its loop has found some events and runs on. */
  datatype Progress = Returned(answer: Result<seq<Event>, Error>) | Running(found: seq<Event>)

  /** The scanning loop, its counter at n, followed for a number of turns. */
  function ScanFor(net: Network, shard: uint32, n: uint64, end: uint64, f: FilterQuery, found: seq<Event>, turns: nat)
    : Progress
    decreases turns
  {
    if n > end then Returned(Ok(found))
    else if turns == 0 then Running(found)
    else
      match BlockLogs(net, shard, n, f)
      case Err(e) => Returned(Err(e))
      case Ok(events) => ScanFor(net, shard, WrapUint64(n as int + 1), end, f, found + events, turns - 1)
  }

  function Continued(found: seq<Event>, rest: Result<seq<Event>, Error>): Result<seq<Event>, Error> {
    match rest
    case Err(e) => Err(e)
    case Ok(events) => Ok(found + events)
  }

  lemma ContinuedTwice(found: seq<Event>, events: seq<Event>, rest: Result<seq<Event>, Error>)
    ensures Continued(found + events, rest) == Continued(found, Continued(events, rest))
  {
    if rest.Ok? { assert found + events + rest.value == found + (events + rest.value); }
  }

  /** Below the top of the range the loop returns exactly the scan, once it had a turn for every block. */
  lemma {:induction false} LoopIsScan(net: Network, shard: uint32, n: uint64, end: uint64, f: FilterQuery,
                                      found: seq<Event>, turns: nat)
    requires end < MAX_UINT64 && n <= end + 1 && turns > end as int - n
    ensures ScanFor(net, shard, n, end, f, found, turns) == Returned(Continued(found, Scan(net, shard, n, end, f)))
    decreases turns
  {
    if n > end {
      assert found + [] == found;
    } else {
      match BlockLogs(net, shard, n, f) {
        case Err(_) =>
        case Ok(events) =>
          LoopIsScan(net, shard, n + 1, end, f, found + events, turns - 1);
          ContinuedTwice(found, events, Scan(net, shard, n + 1, end, f));
      }
    }
  }

  /** At the top of the range the loop can return an error but never an answer, however long it runs. */
  lemma {:induction false} TopScanNeverAnswers(net: Network, shard: uint32, n: uint64, f: FilterQuery,
                                               found: seq<Event>, turns: nat)
    ensures var p := ScanFor(net, shard, n, MAX_UINT64, f, found, turns); p.Running? || p.answer.Err?
    decreases turns
  {
    if turns > 0 && BlockLogs(net, shard, n, f).Ok? {
      var found' := found + BlockLogs(net, shard, n, f).value;
      TopScanNeverAnswers(net, shard, WrapUint64(n as int + 1), f, found', turns - 1);
    }
  }

  /** Where no block fails, the loop is still running after some turns exactly when its counter never passed the end. */
  lemma {:induction false} RunsWhileCounterInRange(net: Network, shard: uint32, n: uint64, end: uint64, f: FilterQuery,
                                                   found: seq<Event>, turns: nat)
    requires forall k :: BlockLogs(net, shard, k, f).Ok?
    ensures ScanFor(net, shard, n, end, f, found, turns).Running? <==> GoesOn(n, end, turns)
    decreases turns
  {
    if n > end {
      assert CounterAfter(n, 0) > end;
    } else {
      GoesOnStep(n, end, turns);
      if turns > 0 {
        var found' := found + BlockLogs(net, shard, n, f).value;
        RunsWhileCounterInRange(net, shard, CounterAfter(n, 1), end, f, found', turns - 1);
      }
    }
  }

  /**
   A scan of start..end without failing blocks has returned after end - start + 1 turns if and only if end is not
   2^64 - 1; with that end it is accepted as a range and never returns.
   */
  lemma ScanReturnsIff(net: Network, shard: uint32, start: uint64, end: uint64, f: FilterQuery)
    requires (forall k :: BlockLogs(net, shard, k, f).Ok?) && start <= end
    ensures ScanFor(net, shard, start, end, f, [], end - start + 1).Returned? <==> end < MAX_UINT64
    ensures end == MAX_UINT64 ==> forall turns: nat :: ScanFor(net, shard, start, end, f, [], turns).Running?
  {
    RunsWhileCounterInRange(net, shard, start, end, f, [], end - start + 1);
    TurnsOfLoop(start, end);
    if end == MAX_UINT64 {
      forall turns: nat ensures ScanFor(net, shard, start, end, f, [], turns).Running? {
        RunsWhileCounterInRange(net, shard, start, end, f, [], turns);
      }
    }
  }

  /** The contents of the cache, and what an evicting cache drops after storing under the given key. */
  type Cache = map<uint64, Bytes>
  type Policy = (Cache, uint64) -> set<uint64>

  datatype Query = Query(shard: uint32, latest: uint64, filter: FilterQuery, turns: nat, policy: Policy)

  function Range(net: Network, q: Query): Result<(uint64, uint64), Error> {
    match q.filter.blockHash
    case None => ResolveBlockRange(q.filter, q.latest)
    case Some(hash) =>
      match net.byHash(q.shard, hash)
      case None => Err(FetchFailed)
      case Some(buff) =>
        match net.parse(buff)
        case None => Err(NotJson)
        case Some(response) => Ok((response.block.nonce, response.block.nonce))
  }

  function Uncached(net: Network, q: Query): Progress {
    match Range(net, q)
    case Err(e) => Returned(Err(e))
    case Ok((start, end)) => ScanFor(net, q.shard, start, end, q.filter, [], q.turns)
  }

  /** By range or by hash, a query ends within 501 turns, unless it goes up to 2^64 - 1, where it gives no answer. */
  lemma QueryReturnsIff(net: Network, q: Query)
    requires Range(net, q).Ok? && q.turns > MAXIMUM_BLOCKS_DELTA
    ensures var (start, end) := Range(net, q).value;
      && (end < MAX_UINT64 && start <= end ==> Uncached(net, q) == Returned(Scan(net, q.shard, start, end, q.filter)))
      && (start > end ==> Uncached(net, q) == Returned(Ok([])))
      && (end == MAX_UINT64 ==> Uncached(net, q).Running? || Uncached(net, q).answer.Err?)
  {
    if q.filter.blockHash.None? { AcceptedRangeIsSmall(q.filter, q.latest); }
    var (start, end) := Range(net, q).value;
    if end == MAX_UINT64 {
      TopScanNeverAnswers(net, q.shard, start, q.filter, [], q.turns);
    } else if start <= end {
      LoopIsScan(net, q.shard, start, end, q.filter, [], q.turns);
      var scanned := Scan(net, q.shard, start, end, q.filter);
      if scanned.Ok? { assert [] + scanned.value == scanned.value; }
    }
  }

  // ---------- the query with a cache ----------

  function Put(cache: Cache, n: uint64, buff: Bytes, policy: Policy): Cache {
    cache[n := buff] - policy(cache, n)
  }

  /** An empty response in the cache is no hit. */
  function CachedBytes(net: Network, shard: uint32, n: uint64, cache: Cache, policy: Policy): (Option<Bytes>, Cache) {
    if n in cache && cache[n] != [] then (Some(cache[n]), cache)
    else
      match net.byNonce(shard, n)
      case None => (None, cache)
      case Some(buff) => (Some(buff), Put(cache, n, buff, policy))
  }

  function CachedLogs(net: Network, shard: uint32, n: uint64, f: FilterQuery, cache: Cache, policy: Policy)
    : (Result<seq<Event>, Error>, Cache)
  {
    var (buff, cache') := CachedBytes(net, shard, n, cache, policy);
    (if buff.None? then Err(FetchFailed) else LogsOf(net, buff.value, f), cache')
  }

  function CachedScanFor(net: Network, shard: uint32, n: uint64, end: uint64, f: FilterQuery, found: seq<Event>,
                         turns: nat, cache: Cache, policy: Policy)
    : (Progress, Cache)
    decreases turns
  {
    if n > end then (Returned(Ok(found)), cache)
    else if turns == 0 then (Running(found), cache)
    else
      var (logs, cache') := CachedLogs(net, shard, n, f, cache, policy);
      match logs
      case Err(e) => (Returned(Err(e)), cache')
      case Ok(events) =>
        CachedScanFor(net, shard, WrapUint64(n as int + 1), end, f, found + events, turns - 1, cache', policy)
  }

  /** Looking a block up by its hash stores the response, whatever it says, under the nonce inside. */
  function AfterHashLookup(net: Network, q: Query, cache: Cache): Cache {
    match q.filter.blockHash
    case None => cache
    case Some(hash) =>
      match net.byHash(q.shard, hash)
      case None => cache
      case Some(buff) =>
        match net.parse(buff)
        case None => cache
        case Some(response) => if buff == [] then cache else Put(cache, response.block.nonce, buff, q.policy)
  }

  function Cached(net: Network, q: Query, cache: Cache): (Progress, Cache) {
    var cache' := AfterHashLookup(net, q, cache);
    match Range(net, q)
    case Err(e) => (Returned(Err(e)), cache')
    case Ok((start, end)) => CachedScanFor(net, q.shard, start, end, q.filter, [], q.turns, cache', q.policy)
  }

  /** The answers to a run of queries, one after the other on one cache. */
  function Answers(net: Network, qs: seq<Query>, cache: Cache): seq<Progress>
    decreases |qs|
  {
    if qs == [] then []
    else
      var (p, cache') := Cached(net, qs[0], cache);
      [p] + Answers(net, qs[1..], cache')
  }

  function Expected(net: Network, qs: seq<Query>): seq<Progress> {
    if qs == [] then [] else [Uncached(net, qs[0])] + Expected(net, qs[1..])
  }

  class Proxy {
    var cache: Cache

    constructor ()
      ensures cache == map[]
    {
      cache := map[];
    }

    method Store(nonce: uint64, buff: Bytes, policy: Policy)
      modifies this
      ensures cache == Put(old(cache), nonce, buff, policy)
    {
      var evicted := policy(cache, nonce);
      cache := cache[nonce := buff];
      cache := cache - evicted;
    }

    method GetBlockBytesByNonce(net: Network, shard: uint32, nonce: uint64, policy: Policy)
      returns (buff: Option<Bytes>)
      modifies this
      ensures (buff, cache) == CachedBytes(net, shard, nonce, old(cache), policy)
    {
      if nonce in cache && cache[nonce] != [] {
        return Some(cache[nonce]);
      }
      buff := net.byNonce(shard, nonce);
      if buff.Some? { Store(nonce, buff.value, policy); }
    }

    method GetBlockNumberByHash(net: Network, q: Query) returns (r: Result<uint64, Error>)
      requires q.filter.blockHash.Some?
      modifies this
      ensures cache == AfterHashLookup(net, q, old(cache))
      ensures Range(net, q) == if r.Ok? then Ok((r.value, r.value)) else Err(r.error)
    {
      var buff := net.byHash(q.shard, q.filter.blockHash.value);
      if buff.None? { return Err(FetchFailed); }
      var response := net.parse(buff.value);
      if response.None? { return Err(NotJson); }
      if |buff.value| > 0 { Store(response.value.block.nonce, buff.value, q.policy); }
      return Ok(response.value.block.nonce);
    }

    method GetLogsFromBlock(net: Network, shard: uint32, nonce: uint64, f: FilterQuery, policy: Policy)
      returns (r: Result<seq<Event>, Error>)
      modifies this
      ensures (r, cache) == CachedLogs(net, shard, nonce, f, old(cache), policy)
    {
      var buff := GetBlockBytesByNonce(net, shard, nonce, policy);
      if buff.None? { return Err(FetchFailed); }
      var response := net.parse(buff.value);
      if response.None? { return Err(NotJson); }
      if response.value.error != [] { return Err(BlockError(response.value.error)); }
      var events := ExtractMatchingEvents(response.value, f);
      return Ok(events);
    }

    method ScanBlocks(net: Network, q: Query, start: uint64, end: uint64) returns (p: Progress)
      modifies this
      ensures (p, cache) == CachedScanFor(net, q.shard, start, end, q.filter, [], q.turns, old(cache), q.policy)
    {
      var matching: seq<Event> := [];
      var n: uint64, turns: nat := start, q.turns;
      while n <= end && turns > 0
        invariant CachedScanFor(net, q.shard, start, end, q.filter, [], q.turns, old(cache), q.policy) ==
                  CachedScanFor(net, q.shard, n, end, q.filter, matching, turns, cache, q.policy)
        decreases turns
      {
        var logs := GetLogsFromBlock(net, q.shard, n, q.filter, q.policy);
        if logs.Err? { return Returned(Err(logs.error)); }
        matching := matching + logs.value;
        n, turns := WrapUint64(n as int + 1), turns - 1;
      }
      return if n > end then Returned(Ok(matching)) else Running(matching);
    }

    /** FilterLogs on the shard and the latest nonce found for the filter. */
    method FilterLogs(net: Network, q: Query) returns (p: Progress)
      modifies this
      ensures (p, cache) == Cached(net, q, old(cache))
    {
      var range: Result<(uint64, uint64), Error>;
      if q.filter.blockHash.Some? {
        var n := GetBlockNumberByHash(net, q);
        range := if n.Ok? then Ok((n.value, n.value)) else Err(n.error);
      } else {
        range := ResolveBlockRange(q.filter, q.latest);
      }
      if range.Err? { return Returned(Err(range.error)); }
      p := ScanBlocks(net, q, range.value.0, range.value.1);
    }

    /** A run of queries on this proxy. */
    method Queries(net: Network, qs: seq<Query>) returns (ps: seq<Progress>)
      modifies this
      ensures ps == Answers(net, qs, old(cache))
    {
      ps := [];
      assert qs[0..] == qs && ps + Answers(net, qs, cache) == Answers(net, qs, cache);
      for i := 0 to |qs|
        invariant Answers(net, qs, old(cache)) == ps + Answers(net, qs[i..], cache)
      {
        assert qs[i..][1..] == qs[i + 1..];
        ghost var rest := Answers(net, qs[i + 1..], Cached(net, qs[i], cache).1);
        var p := FilterLogs(net, qs[i]);
        assert ps + ([p] + rest) == ps + [p] + rest;
        ps := ps + [p];
      }
      assert ps + [] == ps;
    }
  }
}
