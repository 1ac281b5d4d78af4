/** Exactly when the block cache is invisible: over every run of queries on any set of shards. */
module FilterLogsRuns {
  import opened GoTypes
  import opened EventFilter
  import opened FilterLogs

  /** A non-empty response answers every filter as the block of that nonce and shard does. */
  ghost predicate Faithful(net: Network, shard: uint32, n: uint64, buff: Bytes) {
    buff != [] ==> forall f :: LogsOf(net, buff, f) == BlockLogs(net, shard, n, f)
  }

  /** What one of the shards returns for a nonce is, for each of them, the block of that nonce. */
  ghost predicate NoncesAgree(net: Network, shards: set<uint32>) {
    forall s, t, n, buff :: s in shards && t in shards && net.byNonce(s, n) == Some(buff) ==> Faithful(net, t, n, buff)
  }

  /** What one of the shards returns for a hash is, for each of them, the block of the nonce inside. */
  ghost predicate HashesAgree(net: Network, shards: set<uint32>) {
    forall s, t, hash, buff, response ::
      s in shards && t in shards && net.byHash(s, hash) == Some(buff) && net.parse(buff) == Some(response) ==>
        Faithful(net, t, response.block.nonce, buff)
  }

  ghost predicate OverShards(qs: seq<Query>, shards: set<uint32>) {
    forall i :: 0 <= i < |qs| ==> qs[i].shard in shards
  }

  /** From an empty cache, every run over the shards is answered as if there were no cache. */
  ghost predicate CacheIsInvisible(net: Network, shards: set<uint32>) {
    forall qs :: OverShards(qs, shards) ==> Answers(net, qs, map[]) == Expected(net, qs)
  }

  // ---------- agreement is enough ----------

  ghost predicate Coherent(net: Network, shards: set<uint32>, cache: Cache) {
    forall n, t :: n in cache && t in shards ==> Faithful(net, t, n, cache[n])
  }

  lemma LogsAgree(net: Network, shards: set<uint32>, shard: uint32, n: uint64, f: FilterQuery, cache: Cache,
                  policy: Policy)
    requires NoncesAgree(net, shards) && shard in shards && Coherent(net, shards, cache)
    ensures var (logs, cache') := CachedLogs(net, shard, n, f, cache, policy);
      logs == BlockLogs(net, shard, n, f) && Coherent(net, shards, cache')
  {
    if n in cache && cache[n] != [] {
      assert Faithful(net, shard, n, cache[n]);
    }
  }

  lemma {:induction false} ScansAgree(net: Network, shards: set<uint32>, shard: uint32, n: uint64, end: uint64,
                                      f: FilterQuery, found: seq<Event>, turns: nat, cache: Cache, policy: Policy)
    requires NoncesAgree(net, shards) && shard in shards && Coherent(net, shards, cache)
    ensures var (p, cache') := CachedScanFor(net, shard, n, end, f, found, turns, cache, policy);
      p == ScanFor(net, shard, n, end, f, found, turns) && Coherent(net, shards, cache')
    decreases turns
  {
    if n <= end && turns > 0 {
      LogsAgree(net, shards, shard, n, f, cache, policy);
      var (logs, cache') := CachedLogs(net, shard, n, f, cache, policy);
      if logs.Ok? {
        ScansAgree(net, shards, shard, WrapUint64(n as int + 1), end, f, found + logs.value, turns - 1, cache', policy);
      }
    }
  }

  lemma QueryAgrees(net: Network, shards: set<uint32>, q: Query, cache: Cache)
    requires NoncesAgree(net, shards) && HashesAgree(net, shards) && q.shard in shards && Coherent(net, shards, cache)
    ensures var (p, cache') := Cached(net, q, cache); p == Uncached(net, q) && Coherent(net, shards, cache')
  {
    var cache' := AfterHashLookup(net, q, cache);
    assert Coherent(net, shards, cache');
    if Range(net, q).Ok? {
      var (start, end) := Range(net, q).value;
      ScansAgree(net, shards, q.shard, start, end, q.filter, [], q.turns, cache', q.policy);
    }
  }

  lemma {:induction false} RunAgrees(net: Network, shards: set<uint32>, qs: seq<Query>, cache: Cache)
    requires NoncesAgree(net, shards) && HashesAgree(net, shards) && OverShards(qs, shards)
    requires Coherent(net, shards, cache)
    ensures Answers(net, qs, cache) == Expected(net, qs)
    decreases |qs|
  {
    if qs != [] {
      QueryAgrees(net, shards, qs[0], cache);
      RunAgrees(net, shards, qs[1..], Cached(net, qs[0], cache).1);
    }
  }

  // ---------- agreement is necessary ----------

  lemma {:induction false} MatchingIgnoresRange(events: seq<Event>, f: FilterQuery, g: FilterQuery)
    requires f.addresses == g.addresses && f.topics == g.topics
    ensures Matching(events, f) == Matching(events, g)
  {
    if events != [] {
      MatchingIgnoresRange(events[..|events| - 1], f, g);
    }
  }

  lemma LogsIgnoreRange(net: Network, shard: uint32, n: uint64, buff: Bytes, f: FilterQuery, g: FilterQuery)
    requires f.addresses == g.addresses && f.topics == g.topics
    ensures LogsOf(net, buff, f) == LogsOf(net, buff, g) && BlockLogs(net, shard, n, f) == BlockLogs(net, shard, n, g)
  {
    if net.parse(buff).Some? { MatchingIgnoresRange(EventsOf(net.parse(buff).value.block.miniBlocks), f, g); }
    if net.byNonce(shard, n).Some? {
      var other := net.parse(net.byNonce(shard, n).value);
      if other.Some? { MatchingIgnoresRange(EventsOf(other.value.block.miniBlocks), f, g); }
    }
  }

  /** A cache that keeps everything. */
  const KEEP: Policy := (_, _) => {}

  function OneBlock(f: FilterQuery, n: uint64): FilterQuery {
    FilterQuery(None, Some(n), Some(n), f.addresses, f.topics)
  }

  function ByHash(f: FilterQuery, hash: Bytes): FilterQuery {
    FilterQuery(Some(hash), None, None, f.addresses, f.topics)
  }

  function BlockQuery(shard: uint32, n: uint64, f: FilterQuery): Query {
    Query(shard, n, OneBlock(f, n), 1, KEEP)
  }

  function HashQuery(shard: uint32, hash: Bytes, f: FilterQuery): Query {
    Query(shard, 0, ByHash(f, hash), 1, KEEP)
  }

  /** One turn over the block n that yields the given logs; at the top of the range the loop goes on. */
  function Shown(n: uint64, logs: Result<seq<Event>, Error>): Progress {
    match logs
    case Err(e) => Returned(Err(e))
    case Ok(events) => if n < MAX_UINT64 then Returned(Ok(events)) else Running(events)
  }

  /** A scan of one block for one turn shows the logs of that block: the cached ones, or the block's own. */
  lemma OneTurn(net: Network, shard: uint32, n: uint64, f: FilterQuery, cache: Cache)
    ensures var (logs, cache') := CachedLogs(net, shard, n, f, cache, KEEP);
      CachedScanFor(net, shard, n, n, f, [], 1, cache, KEEP) == (Shown(n, logs), cache')
    ensures ScanFor(net, shard, n, n, f, [], 1) == Shown(n, BlockLogs(net, shard, n, f))
  {
    assert forall events: seq<Event> :: [] + events == events;
    var (logs, cache') := CachedLogs(net, shard, n, f, cache, KEEP);
    var next := WrapUint64(n as int + 1);
    assert next > n <==> n < MAX_UINT64;
    if logs.Ok? {
      assert CachedScanFor(net, shard, next, n, f, [] + logs.value, 0, cache', KEEP) == (Shown(n, logs), cache');
    }
    var own := BlockLogs(net, shard, n, f);
    if own.Ok? {
      assert ScanFor(net, shard, next, n, f, [] + own.value, 0) == Shown(n, own);
    }
  }

  lemma BlockQueryShows(net: Network, shard: uint32, n: uint64, f: FilterQuery, cache: Cache)
    ensures var (logs, cache') := CachedLogs(net, shard, n, OneBlock(f, n), cache, KEEP);
      Cached(net, BlockQuery(shard, n, f), cache) == (Shown(n, logs), cache')
    ensures Uncached(net, BlockQuery(shard, n, f)) == Shown(n, BlockLogs(net, shard, n, OneBlock(f, n)))
  {
    OneTurn(net, shard, n, OneBlock(f, n), cache);
  }

  /** Two queries, the second of one block, of which the first left an unfaithful response in the cache. */
  lemma SecondAnswerIsWrong(net: Network, first: Query, t: uint32, n: uint64, f: FilterQuery, buff: Bytes)
    requires buff != [] && LogsOf(net, buff, f) != BlockLogs(net, t, n, f)
    requires var cache := Cached(net, first, map[]).1; n in cache && cache[n] == buff
    ensures var qs := [first, BlockQuery(t, n, f)];
      && |Answers(net, qs, map[])| == |Expected(net, qs)| == 2
      && Answers(net, qs, map[])[1] == Shown(n, LogsOf(net, buff, f))
      && Expected(net, qs)[1] == Shown(n, BlockLogs(net, t, n, f))
      && Answers(net, qs, map[])[1] != Expected(net, qs)[1]
  {
    var second := BlockQuery(t, n, f);
    var cache := Cached(net, first, map[]).1;
    BlockQueryShows(net, t, n, f, cache);
    LogsIgnoreRange(net, t, n, buff, f, OneBlock(f, n));
    assert [first, second][1..] == [second] && [second][1..] == [];
    var (p, cache') := Cached(net, second, cache);
    assert Answers(net, [second], cache) == [p] + Answers(net, [], cache');
    assert Expected(net, [second]) == [Uncached(net, second)] + Expected(net, []);
  }

  /** A response fetched by nonce for one shard stays and answers for another. */
  lemma NonceResponseShows(net: Network, s: uint32, t: uint32, n: uint64, f: FilterQuery, buff: Bytes)
    requires net.byNonce(s, n) == Some(buff) && buff != [] && LogsOf(net, buff, f) != BlockLogs(net, t, n, f)
    ensures var qs := [BlockQuery(s, n, f), BlockQuery(t, n, f)];
      && |Answers(net, qs, map[])| == |Expected(net, qs)| == 2
      && Answers(net, qs, map[])[1] == Shown(n, LogsOf(net, buff, f)) != Expected(net, qs)[1]
  {
    BlockQueryShows(net, s, n, f, map[]);
    assert Cached(net, BlockQuery(s, n, f), map[]).1 == map[n := buff];
    SecondAnswerIsWrong(net, BlockQuery(s, n, f), t, n, f, buff);
  }

  /** A response looked up by hash stays under the nonce inside and answers for that nonce. */
  lemma HashResponseShows(net: Network, s: uint32, t: uint32, hash: Bytes, response: BlockResponse, f: FilterQuery,
                          buff: Bytes)
    requires net.byHash(s, hash) == Some(buff) && net.parse(buff) == Some(response) && buff != []
    requires LogsOf(net, buff, f) != BlockLogs(net, t, response.block.nonce, f)
    ensures var qs := [HashQuery(s, hash, f), BlockQuery(t, response.block.nonce, f)];
      && |Answers(net, qs, map[])| == |Expected(net, qs)| == 2
      && Answers(net, qs, map[])[1] == Shown(response.block.nonce, LogsOf(net, buff, f)) != Expected(net, qs)[1]
  {
    var n := response.block.nonce;
    var cache: Cache := map[n := buff];
    assert AfterHashLookup(net, HashQuery(s, hash, f), map[]) == cache;
    OneTurn(net, s, n, ByHash(f, hash), cache);
    assert Cached(net, HashQuery(s, hash, f), map[]).1 == cache;
    SecondAnswerIsWrong(net, HashQuery(s, hash, f), t, n, f, buff);
  }

  lemma InvisibleMeansNoncesAgree(net: Network, shards: set<uint32>)
    requires CacheIsInvisible(net, shards)
    ensures NoncesAgree(net, shards)
  {
    forall s, t, n, buff | s in shards && t in shards && net.byNonce(s, n) == Some(buff)
      ensures Faithful(net, t, n, buff)
    {
      if !Faithful(net, t, n, buff) {
        var f :| LogsOf(net, buff, f) != BlockLogs(net, t, n, f);
        NonceResponseShows(net, s, t, n, f, buff);
        assert OverShards([BlockQuery(s, n, f), BlockQuery(t, n, f)], shards);
        assert false;
      }
    }
  }

  lemma InvisibleMeansHashesAgree(net: Network, shards: set<uint32>)
    requires CacheIsInvisible(net, shards)
    ensures HashesAgree(net, shards)
  {
    forall s, t, hash, buff, response |
      s in shards && t in shards && net.byHash(s, hash) == Some(buff) && net.parse(buff) == Some(response)
      ensures Faithful(net, t, response.block.nonce, buff)
    {
      if !Faithful(net, t, response.block.nonce, buff) {
        var f :| LogsOf(net, buff, f) != BlockLogs(net, t, response.block.nonce, f);
        HashResponseShows(net, s, t, hash, response, f, buff);
        assert OverShards([HashQuery(s, hash, f), BlockQuery(t, response.block.nonce, f)], shards);
        assert false;
      }
    }
  }

  /**
   Every run of queries over the shards, under every eviction, is answered as without a cache if and only if the
   shards agree, nonce by nonce and hash by hash, on what their responses say.
   */
  lemma CacheIsInvisibleIff(net: Network, shards: set<uint32>)
    ensures CacheIsInvisible(net, shards) <==> NoncesAgree(net, shards) && HashesAgree(net, shards)
  {
    if NoncesAgree(net, shards) && HashesAgree(net, shards) {
      forall qs | OverShards(qs, shards) ensures Answers(net, qs, map[]) == Expected(net, qs) {
        RunAgrees(net, shards, qs, map[]);
      }
    }
    if CacheIsInvisible(net, shards) {
      InvisibleMeansNoncesAgree(net, shards);
      InvisibleMeansHashesAgree(net, shards);
    }
  }

  /** On one shard only the responses to hashes matter. */
  lemma OneShardCacheIsInvisibleIff(net: Network, shard: uint32)
    ensures CacheIsInvisible(net, {shard}) <==> HashesAgree(net, {shard})
  {
    CacheIsInvisibleIff(net, {shard});
    assert NoncesAgree(net, {shard});
  }

  // ---------- two wrong answers ----------

  const ANY := FilterQuery(None, None, None, [], [])

  function OneEvent(e: Event): BlockResponse {
    BlockResponse(Block(7, [[Some([e])]]), [])
  }

  lemma OneEventLogs(net: Network, buff: Bytes, e: Event)
    requires net.parse(buff) == Some(OneEvent(e))
    ensures LogsOf(net, buff, ANY) == Ok([e])
  {
    var miniBlocks := OneEvent(e).block.miniBlocks;
    assert EventsOfTxs([Some([e])]) == EventsOfTxs([]) + [e];
    assert miniBlocks[..0] == [];
    assert EventsOf(miniBlocks) == [e];
    assert Matching([e], ANY) == Matching([e][..0], ANY) + [e];
  }

  /** The key is the nonce only: after a query of block 7 of shard 0, block 7 of shard 1 is answered with its event. */
  lemma ShardsShareKeys(e0: Event, e1: Event)
    requires e0 != e1
    ensures
      var net := Network((shard, _) => Some([if shard == 0 then 0 else 1]), (_, _) => None,
                         buff => Some(OneEvent(if buff == [0] then e0 else e1)));
      var qs := [BlockQuery(0, 7, ANY), BlockQuery(1, 7, ANY)];
      && |Answers(net, qs, map[])| == |Expected(net, qs)| == 2
      && Answers(net, qs, map[])[1] == Returned(Ok([e0])) && Expected(net, qs)[1] == Returned(Ok([e1]))
  {
    var net := Network((shard, _) => Some([if shard == 0 then 0 else 1]), (_, _) => None,
                       buff => Some(OneEvent(if buff == [0] then e0 else e1)));
    OneEventLogs(net, [0], e0);
    OneEventLogs(net, [1], e1);
    BlockQueryShows(net, 0, 7, ANY, map[]);
    assert Cached(net, BlockQuery(0, 7, ANY), map[]).1 == map[7 := [0]];
    SecondAnswerIsWrong(net, BlockQuery(0, 7, ANY), 1, 7, ANY, [0]);
  }

  /** A by-hash response that carries an error is cached under nonce 0; from then on block 0 is answered with it. */
  lemma ErrorResponseIsCached(e: Event, message: Bytes)
    requires message != []
    ensures
      var net := Network((_, _) => Some([0]), (_, _) => Some([1]),
                         buff => Some(if buff == [0] then OneEvent(e) else BlockResponse(Block(0, []), message)));
      var qs := [HashQuery(0, [], ANY), BlockQuery(0, 0, ANY)];
      && Cached(net, qs[0], map[]).1 == map[0 := [1]]
      && |Answers(net, qs, map[])| == |Expected(net, qs)| == 2
      && Answers(net, qs, map[])[1] == Returned(Err(BlockError(message))) && Expected(net, qs)[1] == Returned(Ok([e]))
  {
    var net := Network((_, _) => Some([0]), (_, _) => Some([1]),
                       buff => Some(if buff == [0] then OneEvent(e) else BlockResponse(Block(0, []), message)));
    OneEventLogs(net, [0], e);
    var cache: Cache := map[0 := [1]];
    assert AfterHashLookup(net, HashQuery(0, [], ANY), map[]) == cache;
    OneTurn(net, 0, 0, ByHash(ANY, []), cache);
    SecondAnswerIsWrong(net, HashQuery(0, [], ANY), 0, 0, ANY, [1]);
  }
}
