/** What every interleaving of callers, the worker goroutine and cancellation guarantees. */
module WorkerProperties {
  import opened GoTypes
  import opened TransactionQueues
  import opened WorkerProtocol

  lemma {:induction false} ReachableIsInv(run: seq<Event>)
    requires Exec(INIT, run).Some?
    ensures Inv(Exec(INIT, run).value)
  {
    RunKeepsInv(INIT, run);
  }

  /** Each channel ever returned gets at most one response, and exactly one once the worker has closed. */
  lemma ResponsesPerChannel(run: seq<Event>)
    requires Exec(INIT, run).Some?
    ensures
      var s := Exec(INIT, run).value;
      forall c: nat :: c < |s.delivered| ==> |s.delivered[c]| <= 1 && (s.closed ==> |s.delivered[c]| == 1)
  {
    ReachableIsInv(run);
    var s := Exec(INIT, run).value;
    forall c: nat | c < |s.delivered| ensures |s.delivered[c]| <= 1 && (s.closed ==> |s.delivered[c]| == 1) {
      assert ChannelOk(s.delivered, s.promised, s.owner, s.goroutine, c);
      assert PromiseOpen(s.delivered, s.promised, s.goroutine, s.owner[c].nonce);
    }
  }

  function PoppedNonces(g: Goroutine): set<uint64> {
    if g.Popped? then {g.tx.nonce} else {}
  }

  lemma NoncesDistinct(s: State, t: Transaction, u: Transaction)
    requires Inv(s) && t in s.queue && u in s.queue && t.nonce == u.nonce
    ensures t == u && s.queue[t] == 1
  {
    assert QueuedLinked(s.queue, s.promised, s.owner, t);
    assert QueuedLinked(s.queue, s.promised, s.owner, u);
  }

  /** The nonces in the promise map are exactly the queued ones plus the popped one. */
  lemma PromisedNonces(run: seq<Event>)
    requires Exec(INIT, run).Some?
    ensures
      var s := Exec(INIT, run).value;
      s.promised.Keys == (set t | t in s.queue :: t.nonce) + PoppedNonces(s.goroutine)
  {
    ReachableIsInv(run);
    var s := Exec(INIT, run).value;
    var pending := (set t | t in s.queue :: t.nonce) + PoppedNonces(s.goroutine);
    forall n | n in s.promised ensures n in pending {
      assert PromiseLinked(s.queue, s.promised, s.owner, s.goroutine, n);
    }
    forall t | t in s.queue ensures t.nonce in s.promised {
      assert QueuedLinked(s.queue, s.promised, s.owner, t);
    }
  }

  /** No two pending transactions, queued or popped, have the same nonce. */
  lemma PendingNoncesDistinct(run: seq<Event>, t: Transaction, u: Transaction)
    requires Exec(INIT, run).Some?
    requires var s := Exec(INIT, run).value; t in s.queue && (u in s.queue || s.goroutine == Popped(u))
    requires t.nonce == u.nonce
    ensures var s := Exec(INIT, run).value; t == u && s.queue[t] == 1 && s.goroutine != Popped(u)
  {
    ReachableIsInv(run);
    var s := Exec(INIT, run).value;
    assert QueuedLinked(s.queue, s.promised, s.owner, t);
    assert QueuedLinked(s.queue, s.promised, s.owner, u);
  }

  /** retrieveChannel finds a channel, it is the one returned for this very transaction, and it is still empty. */
  lemma RetrieveFindsOwnChannel(run: seq<Event>)
    requires Exec(INIT, run).Some? && Enabled(Exec(INIT, run).value, Retrieve)
    ensures
      var s := Exec(INIT, run).value;
      var g := After(s, Retrieve).goroutine;
      && g.channel.Some? && g.tx == s.goroutine.tx
      && g.channel.value < |s.owner| == |s.delivered|
      && s.owner[g.channel.value] == g.tx && s.delivered[g.channel.value] == []
  {
    ReachableIsInv(run);
    var s := Exec(INIT, run).value;
    assert PromiseOpen(s.delivered, s.promised, s.goroutine, s.goroutine.tx.nonce);
  }

  /** No send on a channel can block: a finished proxy call can be delivered and cancellation can answer everyone. */
  lemma SendsNeverBlock(run: seq<Event>)
    requires Exec(INIT, run).Some?
    ensures
      var s := Exec(INIT, run).value;
      && (s.goroutine.Answered? ==> Enabled(s, Deliver))
      && (s.goroutine.Idle? ==> Enabled(s, Cancel))
  {
    ReachableIsInv(run);
    var s := Exec(INIT, run).value;
    forall n | n in s.promised && s.goroutine.Idle? ensures CanSendOn(s, Some(s.promised[n])) {
      assert PromiseOpen(s.delivered, s.promised, s.goroutine, n);
    }
  }

  /** A proxy answer read from a channel is the answer to the transaction the channel was returned for. */
  lemma AnswersReachTheirCaller(run: seq<Event>, c: ChannelId)
    requires Exec(INIT, run).Some?
    requires var s := Exec(INIT, run).value; c < |s.delivered| && s.delivered[c] != [] && FromProxy(s.delivered[c][0])
    ensures var s := Exec(INIT, run).value; c < |s.owner| && (s.owner[c], s.delivered[c][0]) in s.sent
  {
    ReachableIsInv(run);
    var s := Exec(INIT, run).value;
    assert AnswerTrue(s.delivered, s.owner, s.sent, c);
  }

  /** The answer is what the channel of its transaction holds, or the goroutine is about to put it there. */
  ghost predicate Told(s: State, call: (Transaction, ProxyAnswer), c: ChannelId) {
    && c < |s.owner| == |s.delivered| && s.owner[c] == call.0
    && (s.delivered[c] == [call.1] || s.goroutine == Answered(call.0, Some(c), call.1))
  }

  ghost predicate Reported(s: State, call: (Transaction, ProxyAnswer)) {
    exists c: ChannelId :: Told(s, call, c)
  }

  ghost predicate AllTold(s: State) {
    forall i :: 0 <= i < |s.sent| ==> Reported(s, s.sent[i])
  }

  lemma EventKeepsTold(s: State, e: Event, call: (Transaction, ProxyAnswer), c: ChannelId)
    requires Inv(s) && Enabled(s, e) && Told(s, call, c)
    ensures Told(After(s, e), call, c)
  {
    if e.Deliver? && s.goroutine == Answered(call.0, Some(c), call.1) {
      assert s.delivered[c] + [call.1] == [call.1];
    }
  }

  lemma EventKeepsAllTold(s: State, e: Event)
    requires Inv(s) && Enabled(s, e) && AllTold(s)
    ensures AllTold(After(s, e))
  {
    var s' := After(s, e);
    forall i | 0 <= i < |s'.sent| ensures Reported(s', s'.sent[i]) {
      if i < |s.sent| {
        assert s'.sent[i] == s.sent[i];
        var c: ChannelId :| Told(s, s.sent[i], c);
        EventKeepsTold(s, e, s.sent[i], c);
      } else {
        assert Told(s', s'.sent[i], s.goroutine.channel.value);
      }
    }
  }

  lemma {:induction false} RunKeepsAllTold(s: State, run: seq<Event>)
    requires Inv(s) && AllTold(s) && Exec(s, run).Some?
    ensures AllTold(Exec(s, run).value)
    decreases |run|
  {
    if run != [] {
      EventKeepsInv(s, run[0]);
      EventKeepsAllTold(s, run[0]);
      RunKeepsAllTold(After(s, run[0]), run[1..]);
    }
  }

  /** No proxy answer is lost, not even by a cancellation: each reaches the channel of the transaction it answers. */
  lemma NoAnswerIsLost(run: seq<Event>)
    requires Exec(INIT, run).Some?
    ensures AllTold(Exec(INIT, run).value)
  {
    RunKeepsAllTold(INIT, run);
  }

  /** Every accepted transaction is queued, in flight or sent, and sent at most once per acceptance. */
  lemma AcceptedAreConserved(run: seq<Event>)
    requires Exec(INIT, run).Some?
    ensures var s := Exec(INIT, run).value; s.accepted == s.queue + InFlight(s.goroutine) + Calls(s.sent)
  {
    ReachableIsInv(run);
  }

  // ---------- acceptance ----------

  /** The transactions added in a run, in order. */
  function Added(run: seq<Event>): seq<Transaction> {
    if run == [] then [] else (if run[0].Add? then [run[0].tx] else []) + Added(run[1..])
  }

  ghost predicate DistinctNonces(txs: seq<Transaction>) {
    forall i, j :: 0 <= i < j < |txs| ==> txs[i].nonce != txs[j].nonce
  }

  lemma EarlierNoncesDiffer(before: seq<Transaction>, tx: Transaction, after: seq<Transaction>)
    requires DistinctNonces(before + [tx] + after)
    ensures forall i :: 0 <= i < |before| ==> before[i].nonce != tx.nonce
  {
    var all := before + [tx] + after;
    assert all[|before|] == tx;
    forall i | 0 <= i < |before| ensures before[i].nonce != tx.nonce { assert all[i] == before[i]; }
  }

  /** Not cancelled, and everything a channel was returned for was accepted. */
  ghost predicate AllAccepted(s: State) {
    Inv(s) && !s.closed && s.accepted == multiset(s.owner)
  }

  lemma AddIsAccepted(s: State, tx: Transaction)
    requires AllAccepted(s) && forall i :: 0 <= i < |s.owner| ==> s.owner[i].nonce != tx.nonce
    ensures AllAccepted(AfterAdd(s, tx)) && AfterAdd(s, tx).owner == s.owner + [tx]
  {
    assert PromiseLinked(s.queue, s.promised, s.owner, s.goroutine, tx.nonce);
    AddKeepsInv(s, tx);
  }

  lemma OthersKeepAccepted(s: State, e: Event)
    requires AllAccepted(s) && Enabled(s, e) && !e.Add? && !e.Cancel?
    ensures AllAccepted(After(s, e)) && After(s, e).owner == s.owner
  {
    EventKeepsInv(s, e);
  }

  lemma FirstIsAccepted(s: State, e: Event, rest: seq<Transaction>, all: seq<Transaction>)
    requires AllAccepted(s) && Enabled(s, e) && !e.Cancel?
    requires DistinctNonces(all) && all == s.owner + ((if e.Add? then [e.tx] else []) + rest)
    ensures AllAccepted(After(s, e)) && all == After(s, e).owner + rest
  {
    if e.Add? {
      assert s.owner + ([e.tx] + rest) == s.owner + [e.tx] + rest;
      EarlierNoncesDiffer(s.owner, e.tx, rest);
      AddIsAccepted(s, e.tx);
    } else {
      assert [] + rest == rest;
      OthersKeepAccepted(s, e);
    }
  }

  /** A channel is returned for every transaction added, accepted or not. */
  lemma {:induction false} OwnersAreAdded(s: State, run: seq<Event>)
    requires Exec(s, run).Some?
    ensures Exec(s, run).value.owner == s.owner + Added(run)
    decreases |run|
  {
    if run == [] {
      assert s.owner + [] == s.owner;
    } else {
      OwnersAreAdded(After(s, run[0]), run[1..]);
      OwnerAfter(s, run[0]);
      Associates(s.owner, if run[0].Add? then [run[0].tx] else [], Added(run[1..]));
    }
  }

  lemma OwnerAfter(s: State, e: Event)
    requires Enabled(s, e)
    ensures After(s, e).owner == s.owner + if e.Add? then [e.tx] else []
  {
  }

  lemma Associates(a: seq<Transaction>, b: seq<Transaction>, c: seq<Transaction>)
    ensures a + b + c == a + (b + c)
  {
  }

  lemma {:induction false} RunAcceptsAll(s: State, run: seq<Event>, all: seq<Transaction>)
    requires AllAccepted(s) && Exec(s, run).Some? && forall i :: 0 <= i < |run| ==> !run[i].Cancel?
    requires DistinctNonces(all) && all == s.owner + Added(run)
    ensures AllAccepted(Exec(s, run).value)
    decreases |run|
  {
    if run != [] {
      FirstIsAccepted(s, run[0], Added(run[1..]), all);
      RunAcceptsAll(After(s, run[0]), run[1..], all);
    }
  }

  /**
   As long as the worker is not cancelled, transactions with pairwise distinct nonces, such as those of one epoch of
   the address nonce handler, are all accepted: none is turned away as already scheduled.
   */
  lemma DistinctNoncesAreAccepted(run: seq<Event>)
    requires Exec(INIT, run).Some? && DistinctNonces(Added(run)) && forall i :: 0 <= i < |run| ==> !run[i].Cancel?
    ensures Exec(INIT, run).value.accepted == multiset(Added(run))
  {
    assert INIT.owner + Added(run) == Added(run);
    RunAcceptsAll(INIT, run, Added(run));
    OwnersAreAdded(INIT, run);
  }

  // ---------- order ----------

  ghost predicate NoAdds(run: seq<Event>) {
    forall i :: 0 <= i < |run| ==> !run[i].Add?
  }

  ghost predicate Increasing(sent: seq<(Transaction, ProxyAnswer)>, from: nat) {
    forall i, j :: from <= i < j < |sent| ==> sent[i].0.nonce < sent[j].0.nonce
  }

  ghost predicate Before(n: uint64, queue: multiset<Transaction>) {
    forall t :: t in queue ==> n < t.nonce
  }

  /** The transaction in flight, if any, precedes everything queued. */
  ghost predicate InFlightFirst(s: State) {
    s.goroutine.Popped? || s.goroutine.Retrieved? ==> Before(s.goroutine.tx.nonce, s.queue)
  }

  ghost predicate SentFirst(s: State, from: nat) {
    forall i :: from <= i < |s.sent| ==>
      && Before(s.sent[i].0.nonce, s.queue)
      && (s.goroutine.Popped? || s.goroutine.Retrieved? ==> s.sent[i].0.nonce < s.goroutine.tx.nonce)
  }

  ghost predicate InOrder(s: State, from: nat) {
    from <= |s.sent| && Increasing(s.sent, from) && InFlightFirst(s) && SentFirst(s, from)
  }

  lemma PopKeepsOrder(s: State, tx: Transaction, from: nat)
    requires Inv(s) && InOrder(s, from) && Enabled(s, Pop(tx))
    ensures InOrder(After(s, Pop(tx)), from)
  {
    var s' := After(s, Pop(tx));
    assert Before(tx.nonce, s'.queue) by {
      forall t | t in s'.queue ensures tx.nonce < t.nonce {
        if t.nonce == tx.nonce { NoncesDistinct(s, t, tx); }
      }
    }
    forall i | from <= i < |s.sent| ensures Before(s.sent[i].0.nonce, s'.queue) && s.sent[i].0.nonce < tx.nonce {
      assert Before(s.sent[i].0.nonce, s.queue);
    }
  }

  lemma SendKeepsOrder(s: State, response: ProxyAnswer, from: nat)
    requires InOrder(s, from) && Enabled(s, Send(response))
    ensures InOrder(After(s, Send(response)), from)
  {
  }

  lemma EventKeepsOrder(s: State, e: Event, from: nat)
    requires Inv(s) && InOrder(s, from) && Enabled(s, e) && !e.Add?
    ensures InOrder(After(s, e), from)
  {
    if e.Pop? {
      PopKeepsOrder(s, e.tx, from);
    } else if e.Send? {
      SendKeepsOrder(s, e.response, from);
    }
  }

  lemma {:induction false} DrainKeepsOrder(s: State, run: seq<Event>, from: nat)
    requires Inv(s) && InOrder(s, from) && NoAdds(run) && Exec(s, run).Some?
    ensures InOrder(Exec(s, run).value, from)
    decreases |run|
  {
    if run != [] {
      EventKeepsInv(s, run[0]);
      EventKeepsOrder(s, run[0], from);
      DrainKeepsOrder(After(s, run[0]), run[1..], from);
    }
  }

  lemma {:induction false} LeastExists(queue: multiset<Transaction>) returns (tx: Transaction)
    requires queue != multiset{}
    ensures IsLeast(tx, queue)
    decreases |queue|
  {
    var t :| t in queue;
    var rest := queue - multiset{t};
    assert queue == rest + multiset{t};
    if rest == multiset{} {
      tx := t;
    } else {
      var u := LeastExists(rest);
      tx := if t.nonce <= u.nonce then t else u;
    }
  }

  /** An answer of the proxy, to be used where any will do. */
  const ACCEPTED: ProxyAnswer := Response([], None)

  /** Every run without additions sends in strictly increasing nonce order. */
  ghost predicate DrainsInOrder(s: State) {
    forall run :: NoAdds(run) && Exec(s, run).Some? ==> Increasing(Exec(s, run).value.sent, |s.sent|)
  }

  /** From an idle goroutine, sending the least transaction queued. */
  function SendLeast(least: Transaction, response: ProxyAnswer): seq<Event> {
    [Pop(least)] + ([Retrieve] + ([Send(response)] + []))
  }

  lemma LeastIsSent(s: State, least: Transaction, response: ProxyAnswer)
    requires s.goroutine.Idle? && IsLeast(least, s.queue)
    ensures Exec(s, SendLeast(least, response)).Some?
    ensures Exec(s, SendLeast(least, response)).value.sent == s.sent + [(least, response)]
  {
    var r2 := [Send(response)] + [];
    ExecFirst(s, Pop(least), [Retrieve] + r2);
    var s1 := After(s, Pop(least));
    ExecFirst(s1, Retrieve, r2);
    ExecFirst(After(s1, Retrieve), Send(response), []);
  }

  /** From a retrieved channel, the transaction in flight is sent first and the least one queued after it. */
  function InFlightThenLeast(least: Transaction, response: ProxyAnswer): seq<Event> {
    [Send(response)] + ([Deliver] + SendLeast(least, response))
  }

  lemma RetrievedThenLeast(s: State, least: Transaction, response: ProxyAnswer)
    requires Inv(s) && s.goroutine.Retrieved? && IsLeast(least, s.queue)
    ensures var run := InFlightThenLeast(least, response);
      && Exec(s, run).Some?
      && Exec(s, run).value.sent == s.sent + [(s.goroutine.tx, response)] + [(least, response)]
  {
    ExecFirst(s, Send(response), [Deliver] + SendLeast(least, response));
    var s1 := After(s, Send(response));
    ExecFirst(s1, Deliver, SendLeast(least, response));
    LeastIsSent(After(s1, Deliver), least, response);
  }

  lemma PoppedThenLeast(s: State, least: Transaction, response: ProxyAnswer)
    requires Inv(s) && s.goroutine.Popped? && IsLeast(least, s.queue)
    ensures var run := [Retrieve] + InFlightThenLeast(least, response);
      && Exec(s, run).Some?
      && Exec(s, run).value.sent == s.sent + [(s.goroutine.tx, response)] + [(least, response)]
  {
    RetrieveKeepsInv(s);
    ExecFirst(s, Retrieve, InFlightThenLeast(least, response));
    RetrievedThenLeast(After(s, Retrieve), least, response);
  }

  lemma SentOutOfOrder(s: State, sent: seq<(Transaction, ProxyAnswer)>, least: Transaction, response: ProxyAnswer)
    requires s.goroutine.Popped? || s.goroutine.Retrieved?
    requires sent == s.sent + [(s.goroutine.tx, response)] + [(least, response)] && least.nonce <= s.goroutine.tx.nonce
    ensures !Increasing(sent, |s.sent|)
  {
    var n := |s.sent|;
    assert sent[n].0 == s.goroutine.tx && sent[n + 1].0 == least;
  }

  lemma NothingAdded(least: Transaction, response: ProxyAnswer)
    ensures NoAdds(InFlightThenLeast(least, response)) && NoAdds([Retrieve] + InFlightThenLeast(least, response))
  {
  }

  lemma LaggardBreaksOrder(s: State)
    requires Inv(s) && !InFlightFirst(s)
    ensures !DrainsInOrder(s)
  {
    var t :| t in s.queue && t.nonce <= s.goroutine.tx.nonce;
    var least := LeastExists(s.queue);
    NothingAdded(least, ACCEPTED);
    var run := InFlightThenLeast(least, ACCEPTED);
    if s.goroutine.Retrieved? {
      RetrievedThenLeast(s, least, ACCEPTED);
    } else {
      PoppedThenLeast(s, least, ACCEPTED);
      run := [Retrieve] + run;
    }
    SentOutOfOrder(s, Exec(s, run).value.sent, least, ACCEPTED);
  }

  /**
   From any reachable state, every run without additions sends in strictly increasing nonce order if and only if the
   transaction in flight, if there is one, precedes everything queued; so from every idle state.
   */
  lemma DrainSendsIncreasingNonces(before: seq<Event>)
    requires Exec(INIT, before).Some?
    ensures DrainsInOrder(Exec(INIT, before).value) <==> InFlightFirst(Exec(INIT, before).value)
  {
    ReachableIsInv(before);
    var s := Exec(INIT, before).value;
    if InFlightFirst(s) {
      forall run | NoAdds(run) && Exec(s, run).Some? ensures Increasing(Exec(s, run).value.sent, |s.sent|) {
        DrainKeepsOrder(s, run, |s.sent|);
      }
    } else {
      LaggardBreaksOrder(s);
    }
  }

  /** Such a state: 6 is popped before 5 is added, and 6 is sent first. */
  lemma LateAdditionIsOvertaken(t5: Transaction, t6: Transaction)
    requires t5.nonce == 5 && t6.nonce == 6
    ensures
      var run := [Add(t6)] + ([Pop(t6)] + ([Add(t5)] + []));
      && Exec(INIT, run).Some? && !InFlightFirst(Exec(INIT, run).value) && !DrainsInOrder(Exec(INIT, run).value)
  {
    var r2 := [Add(t5)] + [];
    ExecFirst(INIT, Add(t6), [Pop(t6)] + r2);
    var s1 := After(INIT, Add(t6));
    ExecFirst(s1, Pop(t6), r2);
    var s2 := After(s1, Pop(t6));
    ExecFirst(s2, Add(t5), []);
    var s3 := After(s2, Add(t5));
    assert t5 in s3.queue;
    DrainSendsIncreasingNonces([Add(t6)] + ([Pop(t6)] + r2));
  }

  // ---------- progress ----------

  predicate IsWorkerEvent(e: Event) {
    e.Pop? || e.Retrieve? || e.Send? || e.Deliver?
  }

  /** The worker events left until the queue is empty and the goroutine idle. */
  function WorkLeft(s: State): nat {
    4 * |s.queue| +
    match s.goroutine
    case Popped(_) => 3
    case Retrieved(_, _) => 2
    case Answered(_, _, _) => 1
    case _ => 0
  }

  lemma StuckMeansAnswered(s: State)
    requires Inv(s) && forall e :: IsWorkerEvent(e) ==> !Enabled(s, e)
    ensures forall c: nat :: c < |s.delivered| ==> |s.delivered[c]| == 1
  {
    assert !Enabled(s, Deliver) && !Enabled(s, Retrieve) && !Enabled(s, Send(ACCEPTED));
    if s.goroutine.Idle? && s.queue != multiset{} {
      var tx := LeastExists(s.queue);
      assert Enabled(s, Pop(tx));
    }
    forall c: nat | c < |s.delivered| ensures |s.delivered[c]| == 1 {
      assert ChannelOk(s.delivered, s.promised, s.owner, s.goroutine, c);
      assert PromiseOpen(s.delivered, s.promised, s.goroutine, s.owner[c].nonce);
      assert PromiseLinked(s.queue, s.promised, s.owner, s.goroutine, s.owner[c].nonce);
    }
  }

  lemma EventSpendsWork(s: State, e: Event)
    requires Enabled(s, e) && IsWorkerEvent(e)
    ensures 1 + WorkLeft(After(s, e)) == WorkLeft(s)
  {
    if e.Pop? {
      assert s.queue == After(s, e).queue + multiset{e.tx};
    }
  }

  lemma {:induction false} WorkIsSpent(s: State, run: seq<Event>)
    requires Exec(s, run).Some? && forall i :: 0 <= i < |run| ==> IsWorkerEvent(run[i])
    ensures |run| + WorkLeft(Exec(s, run).value) == WorkLeft(s)
    decreases |run|
  {
    if run != [] {
      EventSpendsWork(s, run[0]);
      WorkIsSpent(After(s, run[0]), run[1..]);
    }
  }

  /**
   Left alone, the worker finishes: from any reachable state it can take at most WorkLeft further steps, and when it
   can take none every channel ever returned has its one response.
   */
  lemma WorkerFinishes(before: seq<Event>, run: seq<Event>)
    requires Exec(INIT, before).Some? && Exec(Exec(INIT, before).value, run).Some?
    requires forall i :: 0 <= i < |run| ==> IsWorkerEvent(run[i])
    ensures |run| <= WorkLeft(Exec(INIT, before).value)
    ensures
      var s := Exec(Exec(INIT, before).value, run).value;
      (forall e :: IsWorkerEvent(e) ==> !Enabled(s, e)) ==>
        forall c: nat :: c < |s.delivered| ==> |s.delivered[c]| == 1
  {
    ReachableIsInv(before);
    var s := Exec(INIT, before).value;
    WorkIsSpent(s, run);
    RunKeepsInv(s, run);
    var s' := Exec(s, run).value;
    if forall e :: IsWorkerEvent(e) ==> !Enabled(s', e) { StuckMeansAnswered(s'); }
  }
}
