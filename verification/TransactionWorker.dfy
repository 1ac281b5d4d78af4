/**
 The V3 transaction worker in place: the heap, the promise map and the closed flag, changed by the worker's own
 atomic sections. Each section is proved to be one event of the worker protocol.
 */
module TransactionWorkers {
  import opened GoTypes
  import opened TransactionQueues
  import opened WorkerProtocol

  class TransactionWorker {
    const tq: TransactionQueue
    var workerClosed: bool
    var responsesChannels: map<uint64, ChannelId>

    /** The channels made so far, each with all that was ever sent on it. */
    var channels: seq<seq<Response>>

    // The history the protocol speaks of, and the position of the worker goroutine.
    ghost var owner: seq<Transaction>
    ghost var accepted: multiset<Transaction>
    ghost var sent: seq<(Transaction, ProxyAnswer)>
    ghost var goroutine: Goroutine

    ghost predicate Valid()
      reads this, tq, tq.tq
    {
      tq.Valid()
    }

    /** The state of the protocol this object is in. */
    ghost function Abs(): State
      reads this, tq
    {
      State(multiset(Txs(tq.tq)), responsesChannels, workerClosed, goroutine, channels, owner, accepted, sent)
    }

    constructor ()
      ensures Valid() && Abs() == INIT && fresh(tq)
    {
      tq := new TransactionQueue();
      workerClosed, responsesChannels, channels := false, map[], [];
      owner, accepted, sent, goroutine := [], multiset{}, [], Idle;
    }

    /** A channel has capacity 1, so sending is sure not to block only while nothing was sent on it. */
    method SendOn(c: ChannelId, response: Response)
      requires c < |channels| && channels[c] == []
      modifies this`channels
      ensures channels == old(channels)[c := old(channels)[c] + [response]]
    {
      channels := channels[c := channels[c] + [response]];
    }

    /** A new channel that carries its refusal from the start. */
    method RejectedChannel(tx: Transaction, failure: Failure) returns (r: ChannelId)
      requires Valid() && Rejection(Abs(), tx) == Some(Response([], Some(failure)))
      modifies this`channels, this`owner
      ensures Valid() && r == |old(channels)| && Abs() == AfterAdd(old(Abs()), tx)
    {
      r, owner := |channels|, owner + [tx];
      channels := channels + [[]];
      SendOn(r, Response([], Some(failure)));
      assert [] + [Response([], Some(failure))] == [Response([], Some(failure))];
      assert channels == old(channels) + [[Response([], Some(failure))]];
    }

    /** A new, empty channel promised to the transaction's nonce, and the transaction queued. */
    method PromisedChannel(tx: Transaction) returns (r: ChannelId)
      requires Valid() && Rejection(Abs(), tx) == None
      modifies this`channels, this`responsesChannels, this`owner, this`accepted, tq, tq.tq
      ensures Valid() && r == |old(channels)| && Abs() == AfterAdd(old(Abs()), tx)
    {
      r, owner := |channels|, owner + [tx];
      channels, responsesChannels := channels + [[]], responsesChannels[tx.nonce := r];
      accepted := accepted + multiset{tx};
      tq.PushTx(tx);
    }

    method AddTransaction(tx: Transaction) returns (r: ChannelId)
      requires Valid()
      modifies this, tq, tq.tq
      ensures Valid() && r == |old(channels)| && Abs() == AfterAdd(old(Abs()), tx)
    {
      if workerClosed {
        r := RejectedChannel(tx, WorkerClosed);
      } else if tx.nonce in responsesChannels {
        r := RejectedChannel(tx, AlreadyScheduled(tx.nonce));
      } else {
        r := PromisedChannel(tx);
      }
    }

    /** nextTransaction: pop the least transaction, if there is one. */
    method NextTransaction() returns (next: Option<Transaction>)
      requires Valid() && goroutine == Idle
      modifies this`goroutine, tq, tq.tq
      ensures Valid()
      ensures next.None? ==> old(Abs()).queue == multiset{} && Abs() == old(Abs())
      ensures next.Some? ==> Enabled(old(Abs()), Pop(next.value)) && Abs() == After(old(Abs()), Pop(next.value))
    {
      if |tq.tq| == 0 {
        return None;
      }
      var tx := tq.PopTx();
      goroutine := Popped(tx);
      return Some(tx);
    }

    /** retrieveChannel: take the promised channel out of the map; nil where there is none. */
    method RetrieveChannel(nonce: uint64) returns (r: Option<ChannelId>)
      requires Valid() && goroutine.Popped? && goroutine.tx.nonce == nonce
      modifies this`goroutine, this`responsesChannels
      ensures Valid() && Abs() == After(old(Abs()), Retrieve) && goroutine.channel == r
    {
      r := if nonce in responsesChannels then Some(responsesChannels[nonce]) else None;
      responsesChannels := responsesChannels - {nonce};
      goroutine := Retrieved(goroutine.tx, r);
    }

    /** The proxy call returns; only the goroutine's own position changes. */
    method Answer(response: ProxyAnswer)
      requires Valid() && goroutine.Retrieved?
      modifies this`goroutine, this`sent
      ensures Valid() && Abs() == After(old(Abs()), Send(response))
    {
      sent := sent + [(goroutine.tx, response)];
      goroutine := Answered(goroutine.tx, goroutine.channel, response);
    }

    method DeliverOn(r: ChannelId, response: ProxyAnswer)
      requires Valid() && goroutine.Answered? && goroutine.response == response && goroutine.channel == Some(r)
      requires Enabled(Abs(), Deliver)
      modifies this`goroutine, this`channels
      ensures Valid() && Abs() == After(old(Abs()), Deliver)
    {
      SendOn(r, response);
      goroutine := Idle;
    }

    /** The rest of a tick once a transaction was popped: take its channel, call the proxy, pass the answer on. */
    method FinishTick(tx: Transaction, response: ProxyAnswer)
      requires Valid() && goroutine == Popped(tx)
      requires Enabled(After(After(Abs(), Retrieve), Send(response)), Deliver)
      modifies this
      ensures Valid() && Abs() == After(After(After(old(Abs()), Retrieve), Send(response)), Deliver)
    {
      var r := RetrieveChannel(tx.nonce);
      Answer(response);
      DeliverOn(r.value, response);
    }

    /** One tick of the worker, with nobody interfering: the least transaction is sent and its caller answered. */
    method ProcessNextTransaction(proxy: Transaction -> ProxyAnswer) returns (next: Option<Transaction>)
      requires Valid() && goroutine == Idle && Inv(Abs())
      modifies this, tq, tq.tq
      ensures Valid() && Inv(Abs())
      ensures next.None? ==> old(Abs()).queue == multiset{} && Abs() == old(Abs())
      ensures next.Some? ==> Exec(old(Abs()), Tick(next.value, proxy(next.value))) == Some(Abs())
    {
      next := NextTransaction();
      if next.Some? {
        TickIsSafe(old(Abs()), next.value, proxy(next.value));
        FinishTick(next.value, proxy(next.value));
      }
    }

    /** The loop of closeAllChannels, in any order of the map. */
    method AnswerPromised(response: Response)
      requires forall n :: n in responsesChannels ==>
        responsesChannels[n] < |channels| && channels[responsesChannels[n]] == []
      requires forall n, m ::
        n in responsesChannels && m in responsesChannels && responsesChannels[n] == responsesChannels[m] ==> n == m
      modifies this`channels
      ensures |channels| == |old(channels)|
      ensures forall c: nat :: c < |channels| ==>
        channels[c] == if c in responsesChannels.Values then old(channels)[c] + [response] else old(channels)[c]
    {
      var left := responsesChannels.Keys;
      ghost var done: set<ChannelId> := {};
      while left != {}
        invariant left <= responsesChannels.Keys && |channels| == |old(channels)|
        invariant forall n :: n in responsesChannels ==> (responsesChannels[n] in done <==> n !in left)
        invariant done <= responsesChannels.Values
        invariant forall c: nat :: c < |channels| ==>
          channels[c] == if c in done then old(channels)[c] + [response] else old(channels)[c]
        decreases left
      {
        var n :| n in left;
        SendOn(responsesChannels[n], response);
        done := done + {responsesChannels[n]};
        left := left - {n};
      }
    }

    /** closeAllChannels: every promised caller is told that the context is done; the promises stay in the map. */
    method CloseAllChannels()
      requires Valid() && goroutine == Idle && Inv(Abs())
      modifies this`workerClosed, this`goroutine, this`channels
      ensures Valid() && Enabled(old(Abs()), Cancel) && Abs() == After(old(Abs()), Cancel)
    {
      PromisesAreOpenAndDistinct(Abs());
      AnswerPromised(CANCELLED);
      workerClosed := true;
      goroutine := Stopped;
      assert channels == AfterCancel(old(Abs())).delivered;
    }
  }

  function Tick(tx: Transaction, response: ProxyAnswer): seq<Event> {
    [Pop(tx)] + ([Retrieve] + ([Send(response)] + ([Deliver] + [])))
  }

  lemma TickIsFourEvents(s: State, tx: Transaction, response: ProxyAnswer)
    requires Enabled(s, Pop(tx))
    requires var s1 := After(s, Pop(tx)); var s2 := After(s1, Retrieve); Enabled(After(s2, Send(response)), Deliver)
    ensures
      var s1 := After(s, Pop(tx));
      var s2 := After(s1, Retrieve);
      Exec(s, Tick(tx, response)) == Some(After(After(s2, Send(response)), Deliver))
  {
    var s1 := After(s, Pop(tx));
    var s2 := After(s1, Retrieve);
    var s3 := After(s2, Send(response));
    ExecFirst(s, Pop(tx), [Retrieve] + ([Send(response)] + ([Deliver] + [])));
    ExecFirst(s1, Retrieve, [Send(response)] + ([Deliver] + []));
    ExecFirst(s2, Send(response), [Deliver] + []);
    ExecFirst(s3, Deliver, []);
  }

  /** From an invariant idle state the four events of a tick are all enabled and keep the invariant. */
  lemma TickIsSafe(s: State, tx: Transaction, response: ProxyAnswer)
    requires Inv(s) && Enabled(s, Pop(tx))
    ensures
      var s1 := After(s, Pop(tx));
      var s2 := After(s1, Retrieve);
      var s3 := After(s2, Send(response));
      && Enabled(s3, Deliver) && Inv(After(s3, Deliver))
      && Exec(s, Tick(tx, response)) == Some(After(s3, Deliver))
  {
    PopKeepsInv(s, tx);
    var s1 := After(s, Pop(tx));
    RetrieveKeepsInv(s1);
    var s2 := After(s1, Retrieve);
    SendKeepsInv(s2, response);
    DeliverKeepsInv(After(s2, Send(response)));
    TickIsFourEvents(s, tx, response);
  }

  /** In a reachable state no channel is promised to two nonces, and while the worker runs no promised one is full. */
  lemma PromisesAreOpenAndDistinct(s: State)
    requires Inv(s) && s.goroutine == Idle
    ensures forall n :: n in s.promised ==> s.promised[n] < |s.delivered| && s.delivered[s.promised[n]] == []
    ensures forall n, m :: n in s.promised && m in s.promised && s.promised[n] == s.promised[m] ==> n == m
  {
    forall n | n in s.promised ensures s.promised[n] < |s.delivered| && s.delivered[s.promised[n]] == [] {
      assert PromiseOpen(s.delivered, s.promised, s.goroutine, n);
    }
    forall n, m | n in s.promised && m in s.promised && s.promised[n] == s.promised[m] ensures n == m {
      assert PromiseLinked(s.queue, s.promised, s.owner, s.goroutine, n);
      assert PromiseLinked(s.queue, s.promised, s.owner, s.goroutine, m);
    }
  }
}
