/**
 The V3 transaction worker as a protocol: any number of callers of AddTransaction, one worker goroutine and
 cancellation. Every mutex-protected section of the worker is one event, and so are the proxy call and the delivery
 of its answer, which happen outside the lock; a run is any interleaving of enabled events.
 */
module WorkerProtocol {
  import opened GoTypes
  import opened TransactionQueues

  datatype Failure = WorkerClosed | AlreadyScheduled(nonce: uint64) | ContextDone | ProxyFailure(message: Bytes)

  datatype Response = Response(txHash: Bytes, error: Option<Failure>)

  predicate FromProxy(r: Response) {
    r.error.None? || r.error.value.ProxyFailure?
  }

  /** What a proxy call returns: a hash, or an error of the proxy. */
  type ProxyAnswer = r: Response | FromProxy(r) witness Response([], None)

  /** Channels are numbered in the order in which AddTransaction returns them. */
  type ChannelId = nat

  /** Where the worker goroutine stands between two of its atomic sections. */
  datatype Goroutine =
    | Idle
    | Popped(tx: Transaction)
    | Retrieved(tx: Transaction, channel: Option<ChannelId>)
    | Answered(tx: Transaction, channel: Option<ChannelId>, response: ProxyAnswer)
    | Stopped

  /**
   The worker's fields (queue, promised, closed), the goroutine's position and the history the properties speak of:
   what was delivered on each channel, the transaction each channel was returned for, the transactions accepted into
   the queue and the proxy calls made, with their answers.
   */
  datatype State = State(
    queue: multiset<Transaction>,
    promised: map<uint64, ChannelId>,
    closed: bool,
    goroutine: Goroutine,
    delivered: seq<seq<Response>>,
    owner: seq<Transaction>,
    accepted: multiset<Transaction>,
    sent: seq<(Transaction, ProxyAnswer)>)

  const INIT := State(multiset{}, map[], false, Idle, [], [], multiset{}, [])

  datatype Event =
    | Add(tx: Transaction)
    | Pop(tx: Transaction)
    | Retrieve
    | Send(response: ProxyAnswer)
    | Deliver
    | Cancel

  /** A send on a nil channel, or on a capacity-1 channel that already got its response, may block for ever. */
  predicate CanSendOn(s: State, channel: Option<ChannelId>) {
    channel.Some? && channel.value < |s.delivered| && s.delivered[channel.value] == []
  }

  ghost predicate Enabled(s: State, e: Event) {
    match e
    case Add(_) => true
    case Pop(tx) => s.goroutine.Idle? && IsLeast(tx, s.queue)
    case Retrieve => s.goroutine.Popped?
    case Send(_) => s.goroutine.Retrieved?
    case Deliver => s.goroutine.Answered? && CanSendOn(s, s.goroutine.channel)
    case Cancel =>
      && s.goroutine.Idle?
      && forall n :: n in s.promised ==> CanSendOn(s, Some(s.promised[n]))
  }

  function Rejection(s: State, tx: Transaction): Option<Response> {
    if s.closed then Some(Response([], Some(WorkerClosed)))
    else if tx.nonce in s.promised then Some(Response([], Some(AlreadyScheduled(tx.nonce))))
    else None
  }

  function AfterAdd(s: State, tx: Transaction): State {
    match Rejection(s, tx)
    case Some(r) => s.(delivered := s.delivered + [[r]], owner := s.owner + [tx])
    case None =>
      s.(queue := s.queue + multiset{tx},
         promised := s.promised[tx.nonce := |s.delivered|],
         delivered := s.delivered + [[]],
         owner := s.owner + [tx],
         accepted := s.accepted + multiset{tx})
  }

  const CANCELLED := Response([], Some(ContextDone))

  function AfterCancel(s: State): State {
    s.(closed := true,
       goroutine := Stopped,
       delivered := seq(|s.delivered|, c requires 0 <= c < |s.delivered| =>
                        if c in s.promised.Values then s.delivered[c] + [CANCELLED] else s.delivered[c]))
  }

  ghost function After(s: State, e: Event): State
    requires Enabled(s, e)
  {
    match e
    case Add(tx) => AfterAdd(s, tx)
    case Pop(tx) => s.(queue := s.queue - multiset{tx}, goroutine := Popped(tx))
    case Retrieve =>
      var tx := s.goroutine.tx;
      var channel := if tx.nonce in s.promised then Some(s.promised[tx.nonce]) else None;
      s.(promised := s.promised - {tx.nonce}, goroutine := Retrieved(tx, channel))
    case Send(response) =>
      s.(goroutine := Answered(s.goroutine.tx, s.goroutine.channel, response),
         sent := s.sent + [(s.goroutine.tx, response)])
    case Deliver =>
      var c := s.goroutine.channel.value;
      s.(delivered := s.delivered[c := s.delivered[c] + [s.goroutine.response]], goroutine := Idle)
    case Cancel => AfterCancel(s)
  }

  /** The state after a run, or None where some event of it was not enabled. */
  ghost function Exec(s: State, run: seq<Event>): Option<State>
    decreases |run|
  {
    if run == [] then Some(s)
    else if Enabled(s, run[0]) then Exec(After(s, run[0]), run[1..])
    else None
  }

  lemma ExecFirst(s: State, e: Event, rest: seq<Event>)
    requires Enabled(s, e)
    ensures Exec(s, [e] + rest) == Exec(After(s, e), rest)
  {
    assert ([e] + rest)[1..] == rest;
  }

  // ---------- the invariant, in four parts that look at different fields ----------

  ghost predicate PromisedTo(promised: map<uint64, ChannelId>, owner: seq<Transaction>, tx: Transaction) {
    tx.nonce in promised && promised[tx.nonce] < |owner| && owner[promised[tx.nonce]] == tx
  }

  predicate Carries(g: Goroutine) {
    g.Retrieved? || g.Answered?
  }

  predicate Holds(g: Goroutine, c: ChannelId) {
    Carries(g) && g.channel == Some(c)
  }

  /** The goroutine's transaction: promised and out of the queue once popped, then carried with its own channel. */
  ghost predicate InFlightLinked(queue: multiset<Transaction>, promised: map<uint64, ChannelId>,
                                 owner: seq<Transaction>, g: Goroutine)
  {
    && (g.Popped? ==> PromisedTo(promised, owner, g.tx) && g.tx !in queue)
    && (Carries(g) ==>
          && g.channel.Some? && g.channel.value < |owner| && owner[g.channel.value] == g.tx
          && (g.tx.nonce in promised ==> promised[g.tx.nonce] != g.channel.value))
  }

  ghost predicate QueuedLinked(queue: multiset<Transaction>, promised: map<uint64, ChannelId>,
                               owner: seq<Transaction>, t: Transaction)
  {
    t in queue ==> queue[t] == 1 && PromisedTo(promised, owner, t)
  }

  ghost predicate PromiseLinked(queue: multiset<Transaction>, promised: map<uint64, ChannelId>,
                                owner: seq<Transaction>, g: Goroutine, n: uint64)
  {
    n in promised ==>
      && promised[n] < |owner| && owner[promised[n]].nonce == n
      && (owner[promised[n]] in queue || g == Popped(owner[promised[n]]))
  }

  /** The promise map holds exactly the queued transactions and the popped one, each under its own channel. */
  ghost predicate Linked(queue: multiset<Transaction>, promised: map<uint64, ChannelId>, owner: seq<Transaction>,
                         g: Goroutine)
  {
    && (forall t {:trigger QueuedLinked(queue, promised, owner, t)} :: QueuedLinked(queue, promised, owner, t))
    && (forall n {:trigger PromiseLinked(queue, promised, owner, g, n)} :: PromiseLinked(queue, promised, owner, g, n))
    && InFlightLinked(queue, promised, owner, g)
  }

  ghost predicate PromiseOpen(delivered: seq<seq<Response>>, promised: map<uint64, ChannelId>, g: Goroutine, n: uint64)
  {
    n in promised ==> promised[n] < |delivered| && |delivered[promised[n]]| == if g.Stopped? then 1 else 0
  }

  ghost predicate ChannelOk(delivered: seq<seq<Response>>, promised: map<uint64, ChannelId>,
                            owner: seq<Transaction>, g: Goroutine, c: ChannelId)
  {
    c < |delivered| == |owner| ==>
      && |delivered[c]| <= 1
      && (delivered[c] == [] ==> (owner[c].nonce in promised && promised[owner[c].nonce] == c) || Holds(g, c))
  }

  /** A channel without a response is promised or in the goroutine's hands; no channel has two. */
  ghost predicate Fulfilled(delivered: seq<seq<Response>>, promised: map<uint64, ChannelId>,
                            owner: seq<Transaction>, g: Goroutine)
  {
    && |owner| == |delivered|
    && (forall n {:trigger PromiseOpen(delivered, promised, g, n)} :: PromiseOpen(delivered, promised, g, n))
    && (Carries(g) ==> g.channel.Some? && g.channel.value < |delivered| && delivered[g.channel.value] == [])
    && (forall c {:trigger ChannelOk(delivered, promised, owner, g, c)} :: ChannelOk(delivered, promised, owner, g, c))
  }

  ghost predicate AnswerTrue(delivered: seq<seq<Response>>, owner: seq<Transaction>,
                             sent: seq<(Transaction, ProxyAnswer)>, c: ChannelId)
  {
    c < |delivered| == |owner| && delivered[c] != [] && FromProxy(delivered[c][0]) ==>
      (owner[c], delivered[c][0]) in sent
  }

  /** Every proxy answer on a channel answers the transaction that channel was returned for. */
  ghost predicate Truthful(delivered: seq<seq<Response>>, owner: seq<Transaction>, g: Goroutine,
                           sent: seq<(Transaction, ProxyAnswer)>)
  {
    && |owner| == |delivered|
    && (g.Answered? ==> (g.tx, g.response) in sent)
    && (forall c {:trigger AnswerTrue(delivered, owner, sent, c)} :: AnswerTrue(delivered, owner, sent, c))
  }

  function InFlight(g: Goroutine): multiset<Transaction> {
    if g.Popped? || g.Retrieved? then multiset{g.tx} else multiset{}
  }

  function Calls(sent: seq<(Transaction, ProxyAnswer)>): multiset<Transaction> {
    if sent == [] then multiset{} else Calls(sent[..|sent| - 1]) + multiset{sent[|sent| - 1].0}
  }

  /** Conservation: an accepted transaction is queued, in flight or sent, and only once. */
  ghost predicate Accounted(s: State) {
    s.accepted == s.queue + InFlight(s.goroutine) + Calls(s.sent)
  }

  ghost predicate Inv(s: State) {
    && (s.closed <==> s.goroutine.Stopped?)
    && Linked(s.queue, s.promised, s.owner, s.goroutine)
    && Fulfilled(s.delivered, s.promised, s.owner, s.goroutine)
    && Truthful(s.delivered, s.owner, s.goroutine, s.sent)
    && Accounted(s)
  }

  lemma AddKeepsLinks(s: State, tx: Transaction)
    requires Linked(s.queue, s.promised, s.owner, s.goroutine) && |s.owner| == |s.delivered|
    ensures var s' := AfterAdd(s, tx); Linked(s'.queue, s'.promised, s'.owner, s'.goroutine)
  {
    var s' := AfterAdd(s, tx);
    forall t ensures QueuedLinked(s'.queue, s'.promised, s'.owner, t) {
      assert QueuedLinked(s.queue, s.promised, s.owner, t);
    }
    forall n ensures PromiseLinked(s'.queue, s'.promised, s'.owner, s'.goroutine, n) {
      assert PromiseLinked(s.queue, s.promised, s.owner, s.goroutine, n);
    }
  }

  lemma AddKeepsChannels(s: State, tx: Transaction)
    requires s.closed == s.goroutine.Stopped? && Fulfilled(s.delivered, s.promised, s.owner, s.goroutine)
    ensures var s' := AfterAdd(s, tx); Fulfilled(s'.delivered, s'.promised, s'.owner, s'.goroutine)
  {
    var s' := AfterAdd(s, tx);
    forall n ensures PromiseOpen(s'.delivered, s'.promised, s'.goroutine, n) {
      assert PromiseOpen(s.delivered, s.promised, s.goroutine, n);
    }
    forall c ensures ChannelOk(s'.delivered, s'.promised, s'.owner, s'.goroutine, c) {
      assert ChannelOk(s.delivered, s.promised, s.owner, s.goroutine, c);
    }
  }

  lemma AddKeepsTruth(s: State, tx: Transaction)
    requires Truthful(s.delivered, s.owner, s.goroutine, s.sent)
    ensures var s' := AfterAdd(s, tx); Truthful(s'.delivered, s'.owner, s'.goroutine, s'.sent)
  {
    var s' := AfterAdd(s, tx);
    forall c ensures AnswerTrue(s'.delivered, s'.owner, s'.sent, c) {
      assert AnswerTrue(s.delivered, s.owner, s.sent, c);
    }
  }

  lemma AddKeepsAccount(s: State, tx: Transaction)
    requires Accounted(s)
    ensures Accounted(AfterAdd(s, tx))
  {
    var flying, calls := InFlight(s.goroutine), Calls(s.sent);
    assert s.queue + multiset{tx} + flying + calls == s.queue + flying + calls + multiset{tx};
  }

  lemma AddKeepsInv(s: State, tx: Transaction)
    requires Inv(s)
    ensures Inv(AfterAdd(s, tx))
  {
    AddKeepsLinks(s, tx);
    AddKeepsChannels(s, tx);
    AddKeepsTruth(s, tx);
    AddKeepsAccount(s, tx);
    assert AfterAdd(s, tx).closed == s.closed && AfterAdd(s, tx).goroutine == s.goroutine;
  }

  lemma MovesOne(queue: multiset<Transaction>, tx: Transaction, calls: multiset<Transaction>)
    requires tx in queue
    ensures queue + multiset{} + calls == (queue - multiset{tx}) + multiset{tx} + calls
  {
    assert queue == (queue - multiset{tx}) + multiset{tx};
  }

  lemma PopKeepsAccount(s: State, tx: Transaction)
    requires Accounted(s) && Enabled(s, Pop(tx))
    ensures Accounted(After(s, Pop(tx)))
  {
    MovesOne(s.queue, tx, Calls(s.sent));
  }

  lemma PopKeepsInv(s: State, tx: Transaction)
    requires Inv(s) && Enabled(s, Pop(tx))
    ensures Inv(After(s, Pop(tx)))
  {
    var s' := After(s, Pop(tx));
    PopKeepsAccount(s, tx);
    assert QueuedLinked(s.queue, s.promised, s.owner, tx);
    forall t ensures QueuedLinked(s'.queue, s'.promised, s'.owner, t) {
      assert QueuedLinked(s.queue, s.promised, s.owner, t);
    }
    forall n ensures PromiseLinked(s'.queue, s'.promised, s'.owner, s'.goroutine, n) {
      assert PromiseLinked(s.queue, s.promised, s.owner, s.goroutine, n);
    }
    forall n ensures PromiseOpen(s'.delivered, s'.promised, s'.goroutine, n) {
      assert PromiseOpen(s.delivered, s.promised, s.goroutine, n);
    }
    forall c ensures ChannelOk(s'.delivered, s'.promised, s'.owner, s'.goroutine, c) {
      assert ChannelOk(s.delivered, s.promised, s.owner, s.goroutine, c);
    }
  }

  lemma RetrieveKeepsInv(s: State)
    requires Inv(s) && Enabled(s, Retrieve)
    ensures Inv(After(s, Retrieve))
  {
    var s' := After(s, Retrieve);
    assert PromiseOpen(s.delivered, s.promised, s.goroutine, s.goroutine.tx.nonce);
    forall t ensures QueuedLinked(s'.queue, s'.promised, s'.owner, t) {
      assert QueuedLinked(s.queue, s.promised, s.owner, t);
    }
    forall n ensures PromiseLinked(s'.queue, s'.promised, s'.owner, s'.goroutine, n) {
      assert PromiseLinked(s.queue, s.promised, s.owner, s.goroutine, n);
    }
    forall n ensures PromiseOpen(s'.delivered, s'.promised, s'.goroutine, n) {
      assert PromiseOpen(s.delivered, s.promised, s.goroutine, n);
    }
    forall c ensures ChannelOk(s'.delivered, s'.promised, s'.owner, s'.goroutine, c) {
      assert ChannelOk(s.delivered, s.promised, s.owner, s.goroutine, c);
    }
  }

  lemma SendKeepsAccount(s: State, response: ProxyAnswer)
    requires Accounted(s) && Enabled(s, Send(response))
    ensures Accounted(After(s, Send(response)))
  {
    var sent := After(s, Send(response)).sent;
    assert sent[..|sent| - 1] == s.sent;
  }

  lemma SendKeepsInv(s: State, response: ProxyAnswer)
    requires Inv(s) && Enabled(s, Send(response))
    ensures Inv(After(s, Send(response)))
  {
    var s' := After(s, Send(response));
    SendKeepsAccount(s, response);
    forall n ensures PromiseLinked(s'.queue, s'.promised, s'.owner, s'.goroutine, n) {
      assert PromiseLinked(s.queue, s.promised, s.owner, s.goroutine, n);
    }
    forall n ensures PromiseOpen(s'.delivered, s'.promised, s'.goroutine, n) {
      assert PromiseOpen(s.delivered, s.promised, s.goroutine, n);
    }
    forall c ensures ChannelOk(s'.delivered, s'.promised, s'.owner, s'.goroutine, c) {
      assert ChannelOk(s.delivered, s.promised, s.owner, s.goroutine, c);
    }
    forall c ensures AnswerTrue(s'.delivered, s'.owner, s'.sent, c) {
      assert AnswerTrue(s.delivered, s.owner, s.sent, c);
    }
  }

  lemma DeliverKeepsInv(s: State)
    requires Inv(s) && Enabled(s, Deliver)
    ensures Inv(After(s, Deliver))
  {
    var s' := After(s, Deliver);
    forall n ensures PromiseLinked(s'.queue, s'.promised, s'.owner, s'.goroutine, n) {
      assert PromiseLinked(s.queue, s.promised, s.owner, s.goroutine, n);
    }
    forall n ensures PromiseOpen(s'.delivered, s'.promised, s'.goroutine, n) {
      assert PromiseOpen(s.delivered, s.promised, s.goroutine, n);
      assert PromiseLinked(s.queue, s.promised, s.owner, s.goroutine, n);
    }
    forall c ensures ChannelOk(s'.delivered, s'.promised, s'.owner, s'.goroutine, c) {
      assert ChannelOk(s.delivered, s.promised, s.owner, s.goroutine, c);
    }
    forall c ensures AnswerTrue(s'.delivered, s'.owner, s'.sent, c) {
      assert AnswerTrue(s.delivered, s.owner, s.sent, c);
    }
  }

  lemma CancelKeepsChannels(s: State)
    requires Fulfilled(s.delivered, s.promised, s.owner, s.goroutine) && Enabled(s, Cancel)
    ensures var s' := After(s, Cancel); Fulfilled(s'.delivered, s'.promised, s'.owner, s'.goroutine)
  {
    var s' := After(s, Cancel);
    forall n ensures PromiseOpen(s'.delivered, s'.promised, s'.goroutine, n) {
      assert PromiseOpen(s.delivered, s.promised, s.goroutine, n);
    }
    forall c ensures ChannelOk(s'.delivered, s'.promised, s'.owner, s'.goroutine, c) {
      assert ChannelOk(s.delivered, s.promised, s.owner, s.goroutine, c);
    }
  }

  lemma CancelKeepsInv(s: State)
    requires Inv(s) && Enabled(s, Cancel)
    ensures Inv(After(s, Cancel))
  {
    var s' := After(s, Cancel);
    CancelKeepsChannels(s);
    forall n ensures PromiseLinked(s'.queue, s'.promised, s'.owner, s'.goroutine, n) {
      assert PromiseLinked(s.queue, s.promised, s.owner, s.goroutine, n);
    }
    forall c ensures AnswerTrue(s'.delivered, s'.owner, s'.sent, c) {
      assert AnswerTrue(s.delivered, s.owner, s.sent, c);
    }
  }

  lemma EventKeepsInv(s: State, e: Event)
    requires Inv(s) && Enabled(s, e)
    ensures Inv(After(s, e))
  {
    match e
    case Add(tx) => AddKeepsInv(s, tx);
    case Pop(tx) => PopKeepsInv(s, tx);
    case Retrieve => RetrieveKeepsInv(s);
    case Send(response) => SendKeepsInv(s, response);
    case Deliver => DeliverKeepsInv(s);
    case Cancel => CancelKeepsInv(s);
  }

  lemma {:induction false} RunKeepsInv(s: State, run: seq<Event>)
    requires Inv(s) && Exec(s, run).Some?
    ensures Inv(Exec(s, run).value)
    decreases |run|
  {
    if run != [] {
      EventKeepsInv(s, run[0]);
      RunKeepsInv(After(s, run[0]), run[1..]);
    }
  }
}
