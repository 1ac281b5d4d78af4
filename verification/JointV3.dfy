/**
 The V3 address nonce handler and its transaction worker together: callers take nonces, schedule each at most once, in
 any order, and report the responses they read back to the handler, while the worker runs.
 */
module JointV3 {
  import opened GoTypes
  import opened TransactionQueues
  import opened NonceCounter
  import Handler = NonceHandlerV3
  import opened WorkerProtocol
  import opened WorkerProperties

  datatype JointEvent =
    | Hand(caller: nat, account: Option<uint64>)
    | Schedule(slot: nat, tx: Transaction)
    | Work(event: Event)
    | Read(channel: ChannelId)

  /** What happened to the handler, the worker, and which handed-out nonce each of its channels was scheduled with. */
  datatype World = World(history: seq<Handler.Event>, worker: State, slots: seq<nat>)

  const START := World([], INIT, [])

  function HandedOut(w: World): seq<uint64> {
    Handler.Handed(Handler.INVALID, w.history)
  }

  ghost predicate CanHappen(w: World, e: JointEvent) {
    match e
    case Hand(_, _) => true
    case Schedule(slot, tx) => slot < |HandedOut(w)| && slot !in w.slots && tx.nonce == HandedOut(w)[slot]
    case Work(event) => !event.Add? && Enabled(w.worker, event)
    case Read(c) => c < |w.worker.delivered| && w.worker.delivered[c] != []
  }

  ghost function Then(w: World, e: JointEvent): World
    requires CanHappen(w, e)
  {
    match e
    case Hand(caller, account) => w.(history := w.history + [Handler.Compute(caller, account)])
    case Schedule(slot, tx) => w.(worker := AfterAdd(w.worker, tx), slots := w.slots + [slot])
    case Work(event) => w.(worker := After(w.worker, event))
    case Read(c) =>
      w.(history := w.history + [Handler.Respond(c, w.worker.delivered[c][0].error.Some?)])
  }

  ghost function Joint(run: seq<JointEvent>): Option<World> {
    if run == [] then Some(START)
    else
      match Joint(run[..|run| - 1])
      case Some(w) => if CanHappen(w, run[|run| - 1]) then Some(Then(w, run[|run| - 1])) else None
      case None => None
  }

  ghost predicate NeverCancelled(run: seq<JointEvent>) {
    forall i :: 0 <= i < |run| ==> run[i] != Work(Cancel)
  }

  /** The proxy accepted every transaction it was given. */
  ghost predicate ProxyAccepted(sent: seq<(Transaction, ProxyAnswer)>) {
    forall i :: 0 <= i < |sent| ==> sent[i].1.error.None?
  }

  // ---------- what the handler hands out, one event more ----------

  lemma {:induction false} HandedExtends(nonce: int64, run: seq<Handler.Event>, e: Handler.Event)
    ensures Handler.Handed(nonce, run) <= Handler.Handed(nonce, run + [e])
    ensures |Handler.Handed(nonce, run + [e])| <= |Handler.Handed(nonce, run)| + 1
    ensures e.Respond? ==> Handler.Handed(nonce, run + [e]) == Handler.Handed(nonce, run)
    decreases |run|
  {
    if run == [] {
      assert (run + [e])[1..] == [];
    } else {
      assert (run + [e])[1..] == run[1..] + [e];
      HandedExtends(Handler.NonceAfter(nonce, run[0]), run[1..], e);
    }
  }

  /** The nonces handed out so far end below 2^64. */
  ghost predicate InRange(w: World) {
    HandedOut(w) != [] ==> HandedOut(w)[0] as int + |HandedOut(w)| <= TWO_64
  }

  lemma HistoryExtends(w: World, e: JointEvent)
    requires CanHappen(w, e)
    ensures HandedOut(w) <= HandedOut(Then(w, e)) && (InRange(Then(w, e)) ==> InRange(w))
  {
    var w' := Then(w, e);
    if e.Hand? {
      HandedExtends(Handler.INVALID, w.history, Handler.Compute(e.caller, e.account));
    } else if e.Read? {
      HandedExtends(Handler.INVALID, w.history, w'.history[|w.history|]);
    }
  }

  // ---------- the joint invariant ----------

  ghost predicate Succeeded(responses: seq<Response>) {
    forall i :: 0 <= i < |responses| ==> responses[i].error.None?
  }

  /** Nothing that was or is about to be delivered is an error. */
  ghost predicate AllSucceed(s: State) {
    && (forall c :: 0 <= c < |s.delivered| ==> Succeeded(s.delivered[c]))
    && (s.goroutine.Answered? ==> s.goroutine.response.error.None?)
  }

  /** Every channel belongs to a handed-out nonce of its own. */
  ghost predicate Slotted(owner: seq<Transaction>, slots: seq<nat>, handed: seq<uint64>) {
    && |slots| == |owner|
    && (forall c :: 0 <= c < |owner| ==> slots[c] < |handed| && owner[c].nonce == handed[slots[c]])
  }

  ghost predicate Contiguous(handed: seq<uint64>) {
    handed != [] ==> CountsFrom(handed, handed[0])
  }

  ghost predicate JointInv(w: World) {
    && Handler.NoInvalidation(w.history) && AllAccepted(w.worker) && AllSucceed(w.worker)
    && Slotted(w.worker.owner, w.slots, HandedOut(w))
  }

  lemma HandedAreContiguous(w: World)
    requires Handler.NoInvalidation(w.history) && InRange(w)
    ensures Contiguous(HandedOut(w))
  {
    if HandedOut(w) != [] { Handler.EpochIsContiguous(w.history); }
  }

  lemma NonceIsNew(owner: seq<Transaction>, slots: seq<nat>, handed: seq<uint64>, slot: nat)
    requires Slotted(owner, slots, handed) && Contiguous(handed) && slot < |handed| && slot !in slots
    ensures forall c :: 0 <= c < |owner| ==> owner[c].nonce != handed[slot]
  {
    forall c | 0 <= c < |owner| ensures owner[c].nonce != handed[slot] {
      assert slots[c] in slots && handed[slots[c]] == handed[0] as int + slots[c];
    }
  }

  lemma ScheduleKeepsInv(w: World, slot: nat, tx: Transaction)
    requires JointInv(w) && InRange(w) && CanHappen(w, Schedule(slot, tx))
    ensures JointInv(Then(w, Schedule(slot, tx)))
    ensures Rejection(w.worker, tx).None?
  {
    HandedAreContiguous(w);
    NonceIsNew(w.worker.owner, w.slots, HandedOut(w), slot);
    AddIsAccepted(w.worker, tx);
    assert PromiseLinked(w.worker.queue, w.worker.promised, w.worker.owner, w.worker.goroutine, tx.nonce);
  }

  lemma WorkKeepsInv(w: World, e: Event)
    requires JointInv(w) && CanHappen(w, Work(e))
    requires !e.Cancel? && (e.Send? ==> e.response.error.None?)
    ensures JointInv(Then(w, Work(e)))
  {
    OthersKeepAccepted(w.worker, e);
  }

  lemma HandlerKeepsInv(w: World, e: JointEvent)
    requires JointInv(w) && CanHappen(w, e) && (e.Hand? || e.Read?)
    ensures JointInv(Then(w, e))
  {
    HistoryExtends(w, e);
    if e.Read? { assert Succeeded(w.worker.delivered[e.channel]); }
  }

  lemma SentExtends(w: World, e: JointEvent)
    requires CanHappen(w, e)
    ensures w.worker.sent <= Then(w, e).worker.sent
    ensures e.Work? && e.event.Send? ==>
      |Then(w, e).worker.sent| == |w.worker.sent| + 1 && Then(w, e).worker.sent[|w.worker.sent|].1 == e.event.response
  {
  }

  lemma {:induction false} RunKeepsJointInv(run: seq<JointEvent>)
    requires Joint(run).Some? && NeverCancelled(run) && InRange(Joint(run).value)
    requires ProxyAccepted(Joint(run).value.worker.sent)
    ensures JointInv(Joint(run).value)
  {
    if run != [] {
      var init, e := run[..|run| - 1], run[|run| - 1];
      var w := Joint(init).value;
      HistoryExtends(w, e);
      SentExtends(w, e);
      assert NeverCancelled(init) && ProxyAccepted(w.worker.sent);
      RunKeepsJointInv(init);
      match e
      case Schedule(slot, tx) => ScheduleKeepsInv(w, slot, tx);
      case Work(event) => WorkKeepsInv(w, event);
      case _ => HandlerKeepsInv(w, e);
    }
  }

  lemma {:induction false} JointKeepsWorker(run: seq<JointEvent>)
    requires Joint(run).Some?
    ensures Inv(Joint(run).value.worker) && AllTold(Joint(run).value.worker)
  {
    if run != [] {
      var init, e := run[..|run| - 1], run[|run| - 1];
      JointKeepsWorker(init);
      var s := Joint(init).value.worker;
      if e.Work? {
        EventKeepsInv(s, e.event);
        EventKeepsAllTold(s, e.event);
      } else if e.Schedule? {
        EventKeepsInv(s, Add(e.tx));
        EventKeepsAllTold(s, Add(e.tx));
      }
    }
  }

  lemma FaultsAreTold(s: State)
    requires AllTold(s) && AllSucceed(s)
    ensures ProxyAccepted(s.sent)
  {
    forall i | 0 <= i < |s.sent| ensures s.sent[i].1.error.None? {
      assert Reported(s, s.sent[i]);
      var c: ChannelId :| Told(s, s.sent[i], c);
      assert Succeeded(s.delivered[c]) && (s.delivered[c] != [] ==> s.delivered[c][0].error.None?);
    }
  }

  /**
   Handler and worker together, for any callers in any interleaving, without a cancellation: no caller is ever told of
   an error if and only if the proxy accepted all it was given. Until it fails for the first time the handler never
   fetches its nonce again, hands out one contiguous block, and everything scheduled is accepted.
   */
  lemma ErrorsComeFromTheProxy(run: seq<JointEvent>)
    requires Joint(run).Some? && NeverCancelled(run) && InRange(Joint(run).value)
    ensures
      var w := Joint(run).value;
      && (AllSucceed(w.worker) <==> ProxyAccepted(w.worker.sent))
      && (ProxyAccepted(w.worker.sent) ==>
            && Handler.NoInvalidation(w.history) && Contiguous(HandedOut(w))
            && w.worker.accepted == multiset(w.worker.owner))
  {
    var w := Joint(run).value;
    JointKeepsWorker(run);
    if AllSucceed(w.worker) { FaultsAreTold(w.worker); }
    if ProxyAccepted(w.worker.sent) {
      RunKeepsJointInv(run);
      HandedAreContiguous(w);
    }
  }

  // ---------- one fault ----------

  lemma JointThen(run: seq<JointEvent>, e: JointEvent, w: World)
    requires Joint(run) == Some(w) && CanHappen(w, e)
    ensures Joint(run + [e]) == Some(Then(w, e))
  {
    assert (run + [e])[..|run|] == run;
  }

  function HandTwice(caller: nat): seq<Handler.Event> {
    [Handler.Compute(caller, Some(5)), Handler.Compute(caller, Some(5))]
  }

  lemma TwoNonces(caller: nat, rest: seq<Handler.Event>)
    requires rest == [] || rest[0] == Handler.Respond(0, true)
    ensures Handler.Handed(Handler.INVALID, HandTwice(caller) + rest) ==
            [5, 6] + if rest == [] then [] else Handler.Handed(Handler.INVALID, rest[1..])
  {
    var run := HandTwice(caller) + rest;
    assert run[1..] == [Handler.Compute(caller, Some(5))] + rest;
    assert run[1..][1..] == rest;
    assert Handler.Handed(6, rest) == if rest == [] then [] else Handler.Handed(Handler.INVALID, rest[1..]);
  }

  function ScheduleTwo(a: Transaction, b: Transaction): seq<JointEvent> {
    [] + [Hand(0, Some(5))] + [Hand(0, Some(5))] + [Schedule(0, a)] + [Schedule(1, b)]
  }

  function AnswerOne(a: Transaction, b: Transaction, fault: ProxyAnswer): seq<JointEvent> {
    ScheduleTwo(a, b) + [Work(Pop(a))] + [Work(Retrieve)] + [Work(Send(fault))] + [Work(Deliver)]
  }

  function FaultyRun(a: Transaction, b: Transaction, fault: ProxyAnswer, c: Transaction): seq<JointEvent> {
    AnswerOne(a, b, fault) + [Read(0)] + [Hand(1, Some(5))] + [Hand(1, Some(5))] + [Schedule(3, c)]
  }

  function TwoQueued(a: Transaction, b: Transaction): State {
    State(multiset{a, b}, map[5 := 0, 6 := 1], false, Idle, [[], []], [a, b], multiset{a, b}, [])
  }

  function OneLeft(a: Transaction, b: Transaction, g: Goroutine, sent: seq<(Transaction, ProxyAnswer)>): State {
    State(multiset{b}, map[6 := 1], false, g, [[], []], [a, b], multiset{a, b}, sent)
  }

  function OneAnswered(a: Transaction, b: Transaction, fault: ProxyAnswer): State {
    OneLeft(a, b, Idle, [(a, fault)]).(delivered := [[fault], []])
  }

  lemma AddBoth(a: Transaction, b: Transaction)
    requires a.nonce == 5 && b.nonce == 6
    ensures AfterAdd(AfterAdd(INIT, a), b) == TwoQueued(a, b)
  {
  }

  lemma BothHanded()
    ensures Joint([] + [Hand(0, Some(5))] + [Hand(0, Some(5))]) == Some(World(HandTwice(0), INIT, []))
  {
    var w1 := World([Handler.Compute(0, Some(5))], INIT, []);
    JointThen([], Hand(0, Some(5)), START);
    assert Then(START, Hand(0, Some(5))).history == w1.history;
    JointThen([] + [Hand(0, Some(5))], Hand(0, Some(5)), w1);
    assert Then(w1, Hand(0, Some(5))).history == HandTwice(0);
  }

  lemma BothScheduled(a: Transaction, b: Transaction)
    requires a.nonce == 5 && b.nonce == 6
    ensures Joint(ScheduleTwo(a, b)) == Some(World(HandTwice(0), TwoQueued(a, b), [0, 1]))
  {
    BothHanded();
    var run := [] + [Hand(0, Some(5))] + [Hand(0, Some(5))];
    var w := World(HandTwice(0), INIT, []);
    assert HandedOut(w) == [5, 6] by {
      TwoNonces(0, []);
      assert HandTwice(0) + [] == HandTwice(0);
    }
    JointThen(run, Schedule(0, a), w);
    var w1 := World(HandTwice(0), AfterAdd(INIT, a), [] + [0]);
    JointThen(run + [Schedule(0, a)], Schedule(1, b), w1);
    AddBoth(a, b);
    assert [] + [0] + [1] == [0 as nat, 1];
  }

  lemma PoppedAndRetrieved(a: Transaction, b: Transaction)
    requires a.nonce == 5 && b.nonce == 6
    ensures Enabled(TwoQueued(a, b), Pop(a))
    ensures After(After(TwoQueued(a, b), Pop(a)), Retrieve) == OneLeft(a, b, Retrieved(a, Some(0)), [])
  {
    var s := After(TwoQueued(a, b), Pop(a));
    assert s.queue == multiset{b};
    assert s.promised - {5} == map[6 := 1];
  }

  lemma SentAndDelivered(a: Transaction, b: Transaction, fault: ProxyAnswer)
    ensures After(OneLeft(a, b, Retrieved(a, Some(0)), []), Send(fault)) ==
            OneLeft(a, b, Answered(a, Some(0), fault), [(a, fault)])
    ensures After(OneLeft(a, b, Answered(a, Some(0), fault), [(a, fault)]), Deliver) == OneAnswered(a, b, fault)
  {
    var delivered: seq<seq<Response>> := [[], []];
    assert delivered[0] + [fault] == [fault];
    assert delivered[0 := [fault]] == [[fault], []];
  }

  lemma FirstRetrieved(a: Transaction, b: Transaction)
    requires a.nonce == 5 && b.nonce == 6
    ensures Joint(ScheduleTwo(a, b) + [Work(Pop(a))] + [Work(Retrieve)]) ==
            Some(World(HandTwice(0), OneLeft(a, b, Retrieved(a, Some(0)), []), [0, 1]))
  {
    BothScheduled(a, b);
    PoppedAndRetrieved(a, b);
    var w := World(HandTwice(0), TwoQueued(a, b), [0, 1]);
    JointThen(ScheduleTwo(a, b), Work(Pop(a)), w);
    JointThen(ScheduleTwo(a, b) + [Work(Pop(a))], Work(Retrieve), Then(w, Work(Pop(a))));
  }

  lemma FirstAnswered(a: Transaction, b: Transaction, fault: ProxyAnswer)
    requires a.nonce == 5 && b.nonce == 6
    ensures Joint(AnswerOne(a, b, fault)) == Some(World(HandTwice(0), OneAnswered(a, b, fault), [0, 1]))
  {
    FirstRetrieved(a, b);
    SentAndDelivered(a, b, fault);
    var run := ScheduleTwo(a, b) + [Work(Pop(a))] + [Work(Retrieve)];
    var w1 := World(HandTwice(0), OneLeft(a, b, Retrieved(a, Some(0)), []), [0, 1]);
    JointThen(run, Work(Send(fault)), w1);
    var w2 := w1.(worker := OneLeft(a, b, Answered(a, Some(0), fault), [(a, fault)]));
    JointThen(run + [Work(Send(fault))], Work(Deliver), w2);
  }

  /**
   One fault is enough for a caller to be turned away. Nonces 5 and 6 are scheduled and the proxy fails on 5; its caller
   makes the handler fetch 5 again, so 6 is handed out a second time while the first transaction with nonce 6 is still
   queued, and the second one is refused as already scheduled.
   */
  lemma FaultTurnsAwayAnother(a: Transaction, b: Transaction, fault: ProxyAnswer, c: Transaction)
    requires a.nonce == 5 && b.nonce == 6 == c.nonce && fault.error.Some?
    ensures
      var run := FaultyRun(a, b, fault, c);
      && Joint(run).Some? && HandedOut(Joint(run).value) == [5, 6, 5, 6]
      && Joint(run).value.worker.delivered == [[fault], [], [Response([], Some(AlreadyScheduled(6)))]]
  {
    FirstAnswered(a, b, fault);
    var run := AnswerOne(a, b, fault);
    var w := World(HandTwice(0), OneAnswered(a, b, fault), [0, 1]);
    JointThen(run, Read(0), w);
    var w1 := w.(history := HandTwice(0) + [Handler.Respond(0, true)]);
    JointThen(run + [Read(0)], Hand(1, Some(5)), w1);
    var w2 := w1.(history := w1.history + [Handler.Compute(1, Some(5))]);
    JointThen(run + [Read(0)] + [Hand(1, Some(5))], Hand(1, Some(5)), w2);
    var w3 := w2.(history := w2.history + [Handler.Compute(1, Some(5))]);
    FourNonces(w3.history);
    JointThen(run + [Read(0)] + [Hand(1, Some(5))] + [Hand(1, Some(5))], Schedule(3, c), w3);
  }

  lemma FourNonces(history: seq<Handler.Event>)
    requires history == HandTwice(0) + [Handler.Respond(0, true)] + [Handler.Compute(1, Some(5))]
                        + [Handler.Compute(1, Some(5))]
    ensures Handler.Handed(Handler.INVALID, history) == [5, 6, 5, 6]
  {
    var rest := [Handler.Respond(0, true)] + HandTwice(1);
    assert history == HandTwice(0) + rest;
    assert rest[1..] == HandTwice(1) + [];
    TwoNonces(0, rest);
    TwoNonces(1, []);
  }
}
