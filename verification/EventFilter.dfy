/** Filtering the events of a block by address and topics. */
module EventFilter {
  import opened GoTypes

  datatype Event = Event(address: Bytes, topics: seq<Bytes>, data: Bytes)

  /** The logs of a transaction may be missing. */
  type Logs = Option<seq<Event>>

  datatype Block = Block(nonce: uint64, miniBlocks: seq<seq<Logs>>)

  datatype BlockResponse = BlockResponse(block: Block, error: Bytes)

  datatype FilterQuery = FilterQuery(
    blockHash: Option<Bytes>,
    fromBlock: Option<uint64>,
    toBlock: Option<uint64>,
    addresses: seq<Bytes>,
    topics: seq<Bytes>)

  // ---------- what matches ----------

  predicate MatchesTopics(filterTopics: seq<Bytes>, eventTopics: seq<Bytes>) {
    filterTopics <= eventTopics
  }

  /** The address is one of the filter's, if it has any, and the filter's topics are a prefix of the event's. */
  predicate Matches(f: FilterQuery, e: Event) {
    (f.addresses == [] || e.address in f.addresses) && MatchesTopics(f.topics, e.topics)
  }

  function EventsOfTxs(txs: seq<Logs>): seq<Event> {
    if txs == [] then []
    else EventsOfTxs(txs[..|txs| - 1]) + match txs[|txs| - 1] case Some(events) => events case None => []
  }

  /** All events of a block, in miniblock, transaction and event order. */
  function EventsOf(miniBlocks: seq<seq<Logs>>): seq<Event> {
    if miniBlocks == [] then []
    else EventsOf(miniBlocks[..|miniBlocks| - 1]) + EventsOfTxs(miniBlocks[|miniBlocks| - 1])
  }

  function Matching(events: seq<Event>, f: FilterQuery): seq<Event> {
    if events == [] then []
    else
      var last := events[|events| - 1];
      Matching(events[..|events| - 1], f) + if Matches(f, last) then [last] else []
  }

  lemma {:induction false} MatchingConcat(a: seq<Event>, b: seq<Event>, f: FilterQuery)
    ensures Matching(a + b, f) == Matching(a, f) + Matching(b, f)
  {
    if b == [] {
      assert a + b == a;
    } else {
      assert (a + b)[..|a + b| - 1] == a + b[..|b| - 1];
      MatchingConcat(a, b[..|b| - 1], f);
    }
  }

  // ---------- where the matching events stand ----------

  /** No address is given or the event's is listed, and each filter topic is the event's at the same index. */
  ghost predicate Wanted(f: FilterQuery, e: Event) {
    && (|f.addresses| == 0 || exists a :: 0 <= a < |f.addresses| && f.addresses[a] == e.address)
    && |f.topics| <= |e.topics| && forall k :: 0 <= k < |f.topics| ==> f.topics[k] == e.topics[k]
  }

  lemma WantedIsMatched(f: FilterQuery, e: Event)
    ensures Wanted(f, e) <==> Matches(f, e)
  {
    if f.topics <= e.topics { assert forall k :: 0 <= k < |f.topics| ==> f.topics[k] == e.topics[k]; }
    if Wanted(f, e) { assert f.topics == e.topics[..|f.topics|]; }
  }

  datatype Position = Position(miniBlock: nat, tx: nat, index: nat)

  ghost predicate IsEvent(miniBlocks: seq<seq<Logs>>, p: Position) {
    && p.miniBlock < |miniBlocks| && p.tx < |miniBlocks[p.miniBlock]|
    && miniBlocks[p.miniBlock][p.tx].Some? && p.index < |miniBlocks[p.miniBlock][p.tx].value|
  }

  ghost function EventAt(miniBlocks: seq<seq<Logs>>, p: Position): Event
    requires IsEvent(miniBlocks, p)
  {
    miniBlocks[p.miniBlock][p.tx].value[p.index]
  }

  predicate Before(p: Position, q: Position) {
    || p.miniBlock < q.miniBlock
    || (p.miniBlock == q.miniBlock && (p.tx < q.tx || (p.tx == q.tx && p.index < q.index)))
  }

  ghost predicate WantedAt(miniBlocks: seq<seq<Logs>>, f: FilterQuery, p: Position) {
    IsEvent(miniBlocks, p) && Wanted(f, EventAt(miniBlocks, p))
  }

  ghost predicate Ascending(order: seq<Position>) {
    forall m, n :: 0 <= m < n < |order| ==> Before(order[m], order[n])
  }

  /** The events at the positions in order, which are exactly the wanted ones before `end`. */
  ghost predicate PicksUpTo(r: seq<Event>, order: seq<Position>, miniBlocks: seq<seq<Logs>>, f: FilterQuery,
                            end: Position)
  {
    && |order| == |r| && Ascending(order)
    && (forall n :: 0 <= n < |r| ==> IsEvent(miniBlocks, order[n]) && r[n] == EventAt(miniBlocks, order[n]))
    && (forall p :: p in order <==> WantedAt(miniBlocks, f, p) && Before(p, end))
  }

  /** Every wanted event of the block stands in the result, nothing else does, and each after those before it. */
  ghost predicate Picks(r: seq<Event>, order: seq<Position>, miniBlocks: seq<seq<Logs>>, f: FilterQuery) {
    && |order| == |r| && Ascending(order)
    && (forall n :: 0 <= n < |r| ==> IsEvent(miniBlocks, order[n]) && r[n] == EventAt(miniBlocks, order[n]))
    && (forall p :: p in order <==> WantedAt(miniBlocks, f, p))
  }

  /** Where nothing stands from one end to another, what is picked up to them is the same. */
  lemma SameUpTo(r: seq<Event>, order: seq<Position>, miniBlocks: seq<seq<Logs>>, f: FilterQuery, end: Position,
                 end': Position)
    requires PicksUpTo(r, order, miniBlocks, f, end)
    requires forall p :: IsEvent(miniBlocks, p) ==> (Before(p, end) <==> Before(p, end'))
    ensures PicksUpTo(r, order, miniBlocks, f, end')
  {
  }

  lemma NextTx(r: seq<Event>, order: seq<Position>, miniBlocks: seq<seq<Logs>>, f: FilterQuery, i: nat, j: nat)
    requires i < |miniBlocks| && j < |miniBlocks[i]|
    requires var logs := miniBlocks[i][j];
      PicksUpTo(r, order, miniBlocks, f, Position(i, j, if logs.Some? then |logs.value| else 0))
    ensures PicksUpTo(r, order, miniBlocks, f, Position(i, j + 1, 0))
  {
    var logs := miniBlocks[i][j];
    SameUpTo(r, order, miniBlocks, f, Position(i, j, if logs.Some? then |logs.value| else 0), Position(i, j + 1, 0));
  }

  lemma OneEventMore(r: seq<Event>, order: seq<Position>, miniBlocks: seq<seq<Logs>>, f: FilterQuery, p: Position)
    returns (order': seq<Position>)
    requires PicksUpTo(r, order, miniBlocks, f, p) && IsEvent(miniBlocks, p)
    ensures var e := EventAt(miniBlocks, p);
      PicksUpTo(r + if Matches(f, e) then [e] else [], order', miniBlocks, f, p.(index := p.index + 1))
  {
    var e := EventAt(miniBlocks, p);
    WantedIsMatched(f, e);
    order' := order + if Matches(f, e) then [p] else [];
    forall q: Position ensures Before(q, p.(index := p.index + 1)) <==> Before(q, p) || q == p {
      assert q.miniBlock == p.miniBlock && q.tx == p.tx && q.index == p.index ==> q == p;
    }
    forall n | 0 <= n < |order| ensures Before(order[n], p) { assert order[n] in order; }
  }

  lemma {:induction false} OrderOfEvents(r: seq<Event>, order: seq<Position>, miniBlocks: seq<seq<Logs>>,
                                         f: FilterQuery, start: Position, k: nat)
    returns (order': seq<Position>)
    requires start.index == 0 && PicksUpTo(r, order, miniBlocks, f, start)
    requires start.miniBlock < |miniBlocks| && start.tx < |miniBlocks[start.miniBlock]|
    requires var logs := miniBlocks[start.miniBlock][start.tx]; logs.Some? && k <= |logs.value|
    ensures var events := miniBlocks[start.miniBlock][start.tx].value;
      PicksUpTo(r + Matching(events[..k], f), order', miniBlocks, f, start.(index := k))
  {
    var events := miniBlocks[start.miniBlock][start.tx].value;
    if k == 0 {
      order' := order;
      assert r + [] == r;
    } else {
      order' := OrderOfEvents(r, order, miniBlocks, f, start, k - 1);
      var before := r + Matching(events[..k - 1], f);
      order' := OneEventMore(before, order', miniBlocks, f, start.(index := k - 1));
      assert events[..k][..k - 1] == events[..k - 1];
      assert before + (if Matches(f, events[k - 1]) then [events[k - 1]] else []) == r + Matching(events[..k], f);
    }
  }

  /** What the logs of one transaction add. */
  function MatchingLogs(logs: Logs, f: FilterQuery): seq<Event> {
    if logs.Some? then Matching(logs.value, f) else []
  }

  lemma OneTxMore(txs: seq<Logs>, j: nat, f: FilterQuery)
    requires 0 < j <= |txs|
    ensures Matching(EventsOfTxs(txs[..j]), f) ==
            Matching(EventsOfTxs(txs[..j - 1]), f) + MatchingLogs(txs[j - 1], f)
  {
    var before, logs := EventsOfTxs(txs[..j - 1]), txs[j - 1];
    assert txs[..j][..j - 1] == txs[..j - 1];
    if logs.Some? { MatchingConcat(before, logs.value, f); } else { MatchingConcat(before, [], f); }
  }

  lemma OrderOfTx(r: seq<Event>, order: seq<Position>, miniBlocks: seq<seq<Logs>>, f: FilterQuery, i: nat, j: nat)
    returns (order': seq<Position>)
    requires i < |miniBlocks| && j < |miniBlocks[i]| && PicksUpTo(r, order, miniBlocks, f, Position(i, j, 0))
    ensures PicksUpTo(r + MatchingLogs(miniBlocks[i][j], f), order', miniBlocks, f, Position(i, j + 1, 0))
  {
    var logs := miniBlocks[i][j];
    if logs.None? {
      order' := order;
      assert r + [] == r;
      NextTx(r, order, miniBlocks, f, i, j);
    } else {
      order' := OrderOfEvents(r, order, miniBlocks, f, Position(i, j, 0), |logs.value|);
      assert logs.value[..|logs.value|] == logs.value;
      NextTx(r + Matching(logs.value, f), order', miniBlocks, f, i, j);
    }
  }

  lemma {:induction false} OrderOfTxs(r: seq<Event>, order: seq<Position>, miniBlocks: seq<seq<Logs>>, f: FilterQuery,
                                      i: nat, j: nat)
    returns (order': seq<Position>)
    requires i < |miniBlocks| && j <= |miniBlocks[i]| && PicksUpTo(r, order, miniBlocks, f, Position(i, 0, 0))
    ensures PicksUpTo(r + Matching(EventsOfTxs(miniBlocks[i][..j]), f), order', miniBlocks, f, Position(i, j, 0))
  {
    var txs := miniBlocks[i];
    if j == 0 {
      order' := order;
      assert r + [] == r;
    } else {
      order' := OrderOfTxs(r, order, miniBlocks, f, i, j - 1);
      var before := Matching(EventsOfTxs(txs[..j - 1]), f);
      order' := OrderOfTx(r + before, order', miniBlocks, f, i, j - 1);
      OneTxMore(txs, j, f);
      Associates(r, before, MatchingLogs(txs[j - 1], f));
    }
  }

  lemma Associates(a: seq<Event>, b: seq<Event>, c: seq<Event>)
    ensures a + b + c == a + (b + c)
  {
  }

  lemma {:induction false} OrderOfMiniBlocks(miniBlocks: seq<seq<Logs>>, f: FilterQuery, i: nat)
    returns (order: seq<Position>)
    requires i <= |miniBlocks|
    ensures PicksUpTo(Matching(EventsOf(miniBlocks[..i]), f), order, miniBlocks, f, Position(i, 0, 0))
  {
    if i == 0 {
      order := [];
    } else {
      order := OrderOfMiniBlocks(miniBlocks, f, i - 1);
      var txs, before := miniBlocks[i - 1], Matching(EventsOf(miniBlocks[..i - 1]), f);
      order := OrderOfTxs(before, order, miniBlocks, f, i - 1, |txs|);
      assert miniBlocks[..i][..i - 1] == miniBlocks[..i - 1] && txs[..|txs|] == txs;
      MatchingConcat(EventsOf(miniBlocks[..i - 1]), EventsOfTxs(txs), f);
      SameUpTo(before + Matching(EventsOfTxs(txs), f), order, miniBlocks, f, Position(i - 1, |txs|, 0),
               Position(i, 0, 0));
    }
  }

  lemma OrderOfBlock(miniBlocks: seq<seq<Logs>>, f: FilterQuery) returns (order: seq<Position>)
    ensures Picks(Matching(EventsOf(miniBlocks), f), order, miniBlocks, f)
  {
    order := OrderOfMiniBlocks(miniBlocks, f, |miniBlocks|);
    assert miniBlocks[..|miniBlocks|] == miniBlocks;
  }

  // ---------- the loops ----------

  method TopicsMatch(filterTopics: seq<Bytes>, eventTopics: seq<Bytes>) returns (r: bool)
    ensures r <==> MatchesTopics(filterTopics, eventTopics)
    ensures r <==> |filterTopics| <= |eventTopics| && forall k :: 0 <= k < |filterTopics| ==>
      filterTopics[k] == eventTopics[k]
  {
    if |filterTopics| > |eventTopics| { return false; }
    for i := 0 to |filterTopics|
      invariant forall k :: 0 <= k < i ==> filterTopics[k] == eventTopics[k]
    {
      if filterTopics[i] != eventTopics[i] { return false; }
    }
    return true;
  }

  method Contains(addresses: seq<Bytes>, address: Bytes) returns (r: bool)
    ensures r <==> addresses == [] || address in addresses
  {
    if |addresses| == 0 { return true; }
    for i := 0 to |addresses|
      invariant address !in addresses[..i]
    {
      if addresses[i] == address { return true; }
    }
    return false;
  }

  method MatchesFilter(f: FilterQuery, e: Event) returns (r: bool)
    ensures r <==> Matches(f, e)
    ensures r <==> Wanted(f, e)
  {
    WantedIsMatched(f, e);
    r := Contains(f.addresses, e.address);
    if r && |f.topics| > 0 { r := TopicsMatch(f.topics, e.topics); }
  }

  method MatchingOfEvents(events: seq<Event>, f: FilterQuery, found: seq<Event>) returns (r: seq<Event>)
    ensures r == found + Matching(events, f)
  {
    r := found;
    for i := 0 to |events|
      invariant r == found + Matching(events[..i], f)
    {
      assert events[..i + 1][..i] == events[..i];
      var m := MatchesFilter(f, events[i]);
      if m { r := r + [events[i]]; }
    }
    assert events[..|events|] == events;
  }

  method MatchingOfTxs(txs: seq<Logs>, f: FilterQuery, found: seq<Event>) returns (r: seq<Event>)
    ensures r == found + Matching(EventsOfTxs(txs), f)
  {
    r := found;
    for j := 0 to |txs|
      invariant r == found + Matching(EventsOfTxs(txs[..j]), f)
    {
      assert txs[..j + 1][..j] == txs[..j];
      if txs[j].None? {
        assert EventsOfTxs(txs[..j + 1]) == EventsOfTxs(txs[..j]);
        continue;
      }
      MatchingConcat(EventsOfTxs(txs[..j]), txs[j].value, f);
      r := MatchingOfEvents(txs[j].value, f, r);
    }
    assert txs[..|txs|] == txs;
  }

  /** extractMatchingEvents: the three nested loops yield exactly the wanted events, in order. */
  method ExtractMatchingEvents(response: BlockResponse, f: FilterQuery) returns (r: seq<Event>)
    ensures r == Matching(EventsOf(response.block.miniBlocks), f)
    ensures exists order :: Picks(r, order, response.block.miniBlocks, f)
  {
    var miniBlocks := response.block.miniBlocks;
    r := [];
    for i := 0 to |miniBlocks|
      invariant r == Matching(EventsOf(miniBlocks[..i]), f)
    {
      assert miniBlocks[..i + 1][..i] == miniBlocks[..i];
      MatchingConcat(EventsOf(miniBlocks[..i]), EventsOfTxs(miniBlocks[i]), f);
      r := MatchingOfTxs(miniBlocks[i], f, r);
    }
    assert miniBlocks[..|miniBlocks|] == miniBlocks;
    var order := OrderOfBlock(miniBlocks, f);
  }
}
