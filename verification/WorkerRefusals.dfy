/** What each caller of the V3 transaction worker is told, over every run: no error stands on the wrong channel. */
module WorkerRefusals {
  import opened GoTypes
  import opened TransactionQueues
  import opened WorkerProtocol
  import opened WorkerProperties

  lemma {:induction false} ExecSplits(s: State, run: seq<Event>, i: nat)
    requires Exec(s, run).Some? && i <= |run|
    ensures Exec(s, run[..i]).Some? && Exec(Exec(s, run[..i]).value, run[i..]) == Exec(s, run)
    decreases i
  {
    if i == 0 {
      assert run[0..] == run;
    } else {
      ExecSplits(After(s, run[0]), run[1..], i - 1);
      assert run[..i][1..] == run[1..][..i - 1] && run[i..] == run[1..][i - 1..];
    }
  }

  /** The state in which the i-th event of a run happens. */
  ghost function StateAt(run: seq<Event>, i: nat): State
    requires Exec(INIT, run).Some? && i <= |run|
  {
    ExecSplits(INIT, run, i);
    Exec(INIT, run[..i]).value
  }

  ghost function Final(run: seq<Event>): State
    requires Exec(INIT, run).Some?
  {
    Exec(INIT, run).value
  }

  /** The i-th event is the call that returned the channel. */
  ghost predicate Returned(run: seq<Event>, i: nat, c: ChannelId)
    requires Exec(INIT, run).Some?
  {
    i < |run| && run[i].Add? && |StateAt(run, i).delivered| == c
  }

  lemma StatesAreInv(run: seq<Event>, i: nat)
    requires Exec(INIT, run).Some? && i <= |run|
    ensures Inv(StateAt(run, i))
  {
    ExecSplits(INIT, run, i);
    ReachableIsInv(run[..i]);
  }

  lemma NextState(run: seq<Event>, i: nat)
    requires Exec(INIT, run).Some? && i < |run|
    ensures Enabled(StateAt(run, i), run[i]) && StateAt(run, i + 1) == After(StateAt(run, i), run[i])
    ensures Exec(StateAt(run, i + 1), run[i + 1..]) == Some(Final(run))
  {
    ExecSplits(INIT, run, i);
    ExecSplits(INIT, run, i + 1);
    ExecSplits(INIT, run[..i + 1], i);
    assert run[..i + 1][..i] == run[..i] && run[..i + 1][i..] == [run[i]];
    OneEvent(StateAt(run, i), run[i]);
  }

  lemma OneEvent(s: State, e: Event)
    requires Exec(s, [e]).Some?
    ensures Enabled(s, e) && Exec(s, [e]) == Some(After(s, e))
  {
  }

  lemma ChannelsAreNumbered(s: State, e: Event)
    requires Enabled(s, e)
    ensures |After(s, e).delivered| == |s.delivered| + if e.Add? then 1 else 0
  {
  }

  // ---------- what stays ----------

  ghost predicate StaysOn(s: State, w: State, c: ChannelId) {
    c < |s.delivered| && s.delivered[c] != [] ==> c < |w.delivered| && w.delivered[c] == s.delivered[c]
  }

  /** What was delivered and who was served is never taken back. */
  ghost predicate Grows(s: State, w: State) {
    && s.owner <= w.owner && |s.delivered| <= |w.delivered| && (s.closed ==> w.closed)
    && forall c {:trigger StaysOn(s, w, c)} :: StaysOn(s, w, c)
  }

  lemma EventGrows(s: State, e: Event)
    requires Inv(s) && Enabled(s, e)
    ensures Grows(s, After(s, e))
  {
    var w := After(s, e);
    forall c ensures StaysOn(s, w, c) {
      if e.Cancel? && c in s.promised.Values {
        var n :| n in s.promised && s.promised[n] == c;
        assert CanSendOn(s, Some(s.promised[n]));
      }
    }
  }

  lemma GrowsOn(s: State, v: State, w: State)
    requires Grows(s, v) && Grows(v, w)
    ensures Grows(s, w)
  {
    forall c ensures StaysOn(s, w, c) { assert StaysOn(s, v, c) && StaysOn(v, w, c); }
  }

  lemma {:induction false} RunGrows(s: State, run: seq<Event>)
    requires Inv(s) && Exec(s, run).Some?
    ensures Grows(s, Exec(s, run).value)
    decreases |run|
  {
    if run == [] {
      forall c ensures StaysOn(s, s, c) { }
    } else {
      EventKeepsInv(s, run[0]);
      EventGrows(s, run[0]);
      RunGrows(After(s, run[0]), run[1..]);
      GrowsOn(s, After(s, run[0]), Exec(s, run).value);
    }
  }

  // ---------- the channels of accepted transactions ----------

  /** Nothing but answers of the proxy and the cancellation. */
  ghost predicate Served(responses: seq<Response>) {
    forall k :: 0 <= k < |responses| ==> FromProxy(responses[k]) || responses[k] == Response([], Some(ContextDone))
  }

  ghost predicate ServedOn(s: State, c: ChannelId) {
    c < |s.delivered| && Served(s.delivered[c])
  }

  lemma {:induction false} RunKeepsServed(s: State, run: seq<Event>, c: ChannelId)
    requires Exec(s, run).Some? && ServedOn(s, c)
    ensures ServedOn(Exec(s, run).value, c)
    decreases |run|
  {
    if run != [] {
      assert ServedOn(After(s, run[0]), c);
      RunKeepsServed(After(s, run[0]), run[1..], c);
    }
  }

  // ---------- before and after the cancellation ----------

  ghost predicate SaysClosed(r: Response) {
    r.error == Some(ContextDone) || r.error == Some(WorkerClosed)
  }

  ghost predicate NotTold(responses: seq<Response>) {
    forall k :: 0 <= k < |responses| ==> !SaysClosed(responses[k])
  }

  /** While the worker is not cancelled, no caller is told that it is. */
  ghost predicate NobodyTold(s: State) {
    !s.closed ==> forall c :: 0 <= c < |s.delivered| ==> NotTold(s.delivered[c])
  }

  lemma {:induction false} RunTellsNobody(s: State, run: seq<Event>)
    requires NobodyTold(s) && Exec(s, run).Some?
    ensures NobodyTold(Exec(s, run).value)
    decreases |run|
  {
    if run != [] {
      assert NobodyTold(After(s, run[0]));
      RunTellsNobody(After(s, run[0]), run[1..]);
    }
  }

  /** From channel n on, everyone is told that the worker is closed. */
  ghost predicate ClosedFrom(s: State, n: nat) {
    && s.closed && n <= |s.delivered|
    && forall c :: n <= c < |s.delivered| ==> s.delivered[c] == [Response([], Some(WorkerClosed))]
  }

  lemma {:induction false} RunKeepsClosedFrom(s: State, run: seq<Event>, n: nat)
    requires Inv(s) && ClosedFrom(s, n) && Exec(s, run).Some?
    ensures ClosedFrom(Exec(s, run).value, n)
    decreases |run|
  {
    if run != [] {
      EventKeepsInv(s, run[0]);
      assert run[0].Add?;
      RunKeepsClosedFrom(After(s, run[0]), run[1..], n);
    }
  }

  /** At a cancellation every promised channel is told, and every other one has its response. */
  lemma CancelTells(s: State)
    requires Inv(s) && NobodyTold(s) && Enabled(s, Cancel)
    ensures
      var w := After(s, Cancel);
      forall c: nat :: c < |s.delivered| ==>
        && |w.delivered| == |s.delivered| && w.delivered[c] != []
        && (w.delivered[c] == [Response([], Some(ContextDone))] <==> c in s.promised.Values)
        && (c !in s.promised.Values ==> NotTold(w.delivered[c]))
  {
    var w := After(s, Cancel);
    forall c: nat | c < |s.delivered|
      ensures w.delivered[c] != []
      ensures w.delivered[c] == [Response([], Some(ContextDone))] <==> c in s.promised.Values
      ensures c !in s.promised.Values ==> NotTold(w.delivered[c])
    {
      assert ChannelOk(s.delivered, s.promised, s.owner, s.goroutine, c);
      if c in s.promised.Values {
        var n :| n in s.promised && s.promised[n] == c;
        assert CanSendOn(s, Some(s.promised[n]));
        assert [] + [Response([], Some(ContextDone))] == [Response([], Some(ContextDone))];
      } else {
        assert NotTold(s.delivered[c]);
        assert SaysClosed(Response([], Some(ContextDone)));
        assert w.delivered[c] == s.delivered[c];
        assert s.delivered[c] != [] ==> !SaysClosed(s.delivered[c][0]);
      }
    }
  }

  /**
   In every run in which the worker is cancelled: "context done" stands exactly on the channels that were promised at
   that moment, and "worker closed" exactly on those returned afterwards.
   */
  lemma WhatCancelTells(run: seq<Event>, i: nat, c: ChannelId)
    requires Exec(INIT, run).Some? && i < |run| && run[i].Cancel? && c < |Final(run).delivered|
    ensures
      var s, told := StateAt(run, i), Final(run).delivered[c];
      && (told == [Response([], Some(ContextDone))] <==> c in s.promised.Values)
      && (told == [Response([], Some(WorkerClosed))] <==> c >= |s.delivered|)
      && (c < |s.delivered| && c !in s.promised.Values ==> NotTold(told))
  {
    var s, v, w := StateAt(run, i), StateAt(run, i + 1), Final(run);
    ExecSplits(INIT, run, i);
    StatesAreInv(run, i);
    StatesAreInv(run, i + 1);
    NextState(run, i);
    RunTellsNobody(INIT, run[..i]);
    CancelTells(s);
    RunKeepsClosedFrom(v, run[i + 1..], |s.delivered|);
    RunGrows(v, run[i + 1..]);
    assert StaysOn(v, w, c);
    PromisedChannelsExist(s);
    if c < |s.delivered| && w.delivered[c] == [Response([], Some(WorkerClosed))] {
      assert SaysClosed(w.delivered[c][0]);
    }
  }

  lemma PromisedChannelsExist(s: State)
    requires Enabled(s, Cancel)
    ensures forall c :: c in s.promised.Values ==> c < |s.delivered|
  {
    forall n | n in s.promised ensures s.promised[n] < |s.delivered| { assert CanSendOn(s, Some(s.promised[n])); }
  }

  /** Without a cancellation nobody is told of one. */
  lemma NobodyToldWithoutCancel(run: seq<Event>, c: ChannelId)
    requires Exec(INIT, run).Some? && c < |Final(run).delivered| && forall i :: 0 <= i < |run| ==> !run[i].Cancel?
    ensures NotTold(Final(run).delivered[c])
  {
    RunTellsNobody(INIT, run);
    StaysOpen(INIT, run);
  }

  lemma {:induction false} StaysOpen(s: State, run: seq<Event>)
    requires !s.closed && Exec(s, run).Some? && forall i :: 0 <= i < |run| ==> !run[i].Cancel?
    ensures !Exec(s, run).value.closed
    decreases |run|
  {
    if run != [] { StaysOpen(After(s, run[0]), run[1..]); }
  }

  // ---------- what a call is told ----------

  /** What the call finds on its channel when it returns, if anything. */
  lemma WhatAddTells(s: State, tx: Transaction)
    requires Inv(s)
    ensures
      var v, c := After(s, Add(tx)), |s.delivered|;
      && |v.delivered| == |v.owner| == c + 1 && v.owner[c] == tx
      && v.delivered[c] == if s.closed then [Response([], Some(WorkerClosed))]
                           else if tx.nonce in s.promised then [Response([], Some(AlreadyScheduled(tx.nonce)))]
                           else []
  {
  }

  /** The channel promised for a nonce belongs to a transaction with that nonce and, before a cancellation, is empty. */
  lemma PromisedIsWaiting(s: State, n: uint64)
    requires Inv(s) && !s.closed && n in s.promised
    ensures var d := s.promised[n];
      d < |s.delivered| == |s.owner| && s.owner[d].nonce == n && s.delivered[d] == []
  {
    assert PromiseLinked(s.queue, s.promised, s.owner, s.goroutine, n);
    assert PromiseOpen(s.delivered, s.promised, s.goroutine, n);
  }

  /**
   The channel returned by a call: "worker closed" if and only if the worker had been cancelled; "already scheduled",
   with the caller's own nonce, if and only if an earlier channel was promised for that nonce and still waiting; and
   otherwise nothing but what the proxy answered to the caller's transaction, or that the context is done.
   */
  lemma WhatCallersAreTold(run: seq<Event>, i: nat, c: ChannelId)
    requires Exec(INIT, run).Some? && Returned(run, i, c)
    ensures c < |Final(run).delivered| == |Final(run).owner| && Final(run).owner[c] == run[i].tx
    ensures
      var s, tx, told := StateAt(run, i), run[i].tx, Final(run).delivered[c];
      && (told == [Response([], Some(WorkerClosed))] <==> s.closed)
      && (told == [Response([], Some(AlreadyScheduled(tx.nonce)))] <==> !s.closed && tx.nonce in s.promised)
      && (!s.closed && tx.nonce !in s.promised ==> Served(told))
  {
    var s, v, w := StateAt(run, i), StateAt(run, i + 1), Final(run);
    StatesAreInv(run, i);
    StatesAreInv(run, i + 1);
    NextState(run, i);
    WhatAddTells(s, run[i].tx);
    RunGrows(v, run[i + 1..]);
    RunKeepsInv(v, run[i + 1..]);
    assert StaysOn(v, w, c);
    if !s.closed && run[i].tx.nonce !in s.promised {
      RunKeepsServed(v, run[i + 1..], c);
      if w.delivered[c] != [] { assert FromProxy(w.delivered[c][0]) || w.delivered[c][0].error == Some(ContextDone); }
    }
  }

  lemma {:induction false} EveryChannelWasReturned(run: seq<Event>, c: ChannelId) returns (i: nat)
    requires Exec(INIT, run).Some? && c < |Final(run).delivered|
    ensures Returned(run, i, c)
    decreases |run|
  {
    var n := |run| - 1;
    assert run[..|run|] == run;
    NextState(run, n);
    ChannelsAreNumbered(StateAt(run, n), run[n]);
    if c < |StateAt(run, n).delivered| {
      ExecSplits(INIT, run, n);
      i := EveryChannelWasReturned(run[..n], c);
      assert run[..n][..i] == run[..i];
    } else {
      i := n;
    }
  }

  /** Whether a response on a channel returned in a state, to a transaction, is true of the run it belongs to. */
  ghost predicate TrueOf(run: seq<Event>, s: State, tx: Transaction, c: ChannelId, r: Response)
    requires Exec(INIT, run).Some?
  {
    match r.error
    case None => (tx, r) in Final(run).sent
    case Some(ProxyFailure(_)) => (tx, r) in Final(run).sent
    case Some(AlreadyScheduled(n)) =>
      && n == tx.nonce && !s.closed && n in s.promised
      && var d := s.promised[n];
         d < c && d < |s.delivered| == |s.owner| && s.owner[d].nonce == n && s.delivered[d] == []
    case Some(WorkerClosed) => s.closed
    case Some(ContextDone) =>
      !s.closed && exists k :: 0 <= k < |run| && run[k].Cancel? && c in StateAt(run, k).promised.Values
  }

  /**
   Over every run every response on a channel is true: an answer is the proxy's to the channel's own transaction;
   "already scheduled" names its nonce, and another channel for it was promised and waiting when it was returned;
   "worker closed" was returned after the cancellation; "context done" was promised when that happened.
   */
  lemma RefusalsTellTheTruth(run: seq<Event>, c: ChannelId) returns (i: nat)
    requires Exec(INIT, run).Some? && c < |Final(run).delivered|
    ensures Returned(run, i, c) && c < |Final(run).owner| && Final(run).owner[c] == run[i].tx
    ensures
      var told := Final(run).delivered[c];
      told == [] || (|told| == 1 && TrueOf(run, StateAt(run, i), run[i].tx, c, told[0]))
  {
    i := EveryChannelWasReturned(run, c);
    WhatCallersAreTold(run, i, c);
    AtMostOneTrueAnswer(run, c);
    var s, told := StateAt(run, i), Final(run).delivered[c];
    StatesAreInv(run, i);
    StatesAreInv(run, i + 1);
    NextState(run, i);
    if !s.closed && run[i].tx.nonce in s.promised { PromisedIsWaiting(s, run[i].tx.nonce); }
    if told == [Response([], Some(ContextDone))] { ContextDoneWasCancelled(run, c); }
  }

  lemma AtMostOneTrueAnswer(run: seq<Event>, c: ChannelId)
    requires Exec(INIT, run).Some? && c < |Final(run).delivered|
    ensures var w := Final(run);
      && |w.delivered[c]| <= 1 && c < |w.owner|
      && (w.delivered[c] != [] && FromProxy(w.delivered[c][0]) ==> (w.owner[c], w.delivered[c][0]) in w.sent)
  {
    var w := Final(run);
    ReachableIsInv(run);
    assert ChannelOk(w.delivered, w.promised, w.owner, w.goroutine, c);
    assert AnswerTrue(w.delivered, w.owner, w.sent, c);
  }

  lemma ContextDoneWasCancelled(run: seq<Event>, c: ChannelId)
    requires Exec(INIT, run).Some? && c < |Final(run).delivered|
    requires Final(run).delivered[c] == [Response([], Some(ContextDone))]
    ensures exists k :: 0 <= k < |run| && run[k].Cancel? && c in StateAt(run, k).promised.Values
  {
    if k :| 0 <= k < |run| && run[k].Cancel? {
      WhatCancelTells(run, k, c);
    } else {
      NobodyToldWithoutCancel(run, c);
      assert SaysClosed(Final(run).delivered[c][0]);
    }
  }
}
