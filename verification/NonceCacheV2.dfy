/** What a V2 handler has cached after any run of its sections: the last transaction sent under each nonce. */
module NonceCacheV2 {
  import opened GoTypes
  import opened NonceCounter
  import opened NonceHandlerV2
  import opened NonceSectionsV2

  lemma {:induction false} ExecSplits(w: World, run: seq<Event>, i: nat)
    requires Exec(w, run).Some? && i <= |run|
    ensures Exec(w, run[..i]).Some? && Exec(Exec(w, run[..i]).value, run[i..]) == Exec(w, run)
    decreases i
  {
    if i == 0 {
      assert run[0..] == run;
    } else {
      ExecSplits(After(w, run[0]), run[1..], i - 1);
      assert run[..i][1..] == run[1..][..i - 1] && run[i..] == run[1..][i - 1..];
    }
  }

  /** The world in which the i-th event of a run happens. */
  ghost function WorldAt(run: seq<Event>, i: nat): World
    requires Exec(START, run).Some? && i <= |run|
  {
    ExecSplits(START, run, i);
    Exec(START, run[..i]).value
  }

  /** The k-th event takes whatever is cached under n out: a drop, or a sweep not below it or on the shortcut. */
  ghost predicate Removes(run: seq<Event>, k: nat, n: uint64)
    requires Exec(START, run).Some? && k < |run|
  {
    || run[k].DropAll?
    || (run[k].Sweep? && (n <= run[k].account || run[k].account == WorldAt(run, k).h.counter.computed))
  }

  ghost predicate Sends(e: Event, n: uint64) {
    e.SendTx? && e.tx.nonce == n
  }

  /** The i-th event sends a transaction under n, none is sent under n after it, and none removed. */
  ghost predicate LastSentAt(run: seq<Event>, i: nat, n: uint64)
    requires Exec(START, run).Some?
  {
    && i < |run| && Sends(run[i], n)
    && forall k :: i < k < |run| ==> !Sends(run[k], n) && !Removes(run, k, n)
  }

  lemma LastWorld(run: seq<Event>)
    requires Exec(START, run).Some? && run != []
    ensures
      var init, e := run[..|run| - 1], run[|run| - 1];
      && Exec(START, init).Some? && WorldAt(run, |run| - 1) == Exec(START, init).value
      && Enabled(Exec(START, init).value, e) && Exec(START, run).value == After(Exec(START, init).value, e)
  {
    var n := |run| - 1;
    ExecSplits(START, run, n);
    assert run[n..] == [run[n]];
  }

  /** Being the last one sent survives an event that neither sends under n nor removes it, and no other. */
  lemma LastSentExtends(run: seq<Event>, i: nat, n: uint64)
    requires Exec(START, run).Some? && i < |run| - 1 && Exec(START, run[..|run| - 1]).Some?
    ensures LastSentAt(run, i, n) <==>
            LastSentAt(run[..|run| - 1], i, n) && !Sends(run[|run| - 1], n) && !Removes(run, |run| - 1, n)
  {
    var init := run[..|run| - 1];
    forall k | 0 <= k < |init| ensures Removes(init, k, n) <==> Removes(run, k, n) {
      assert init[..k] == run[..k];
    }
  }

  /** One event: what it leaves under n. */
  lemma EventOnCache(w: World, e: Event, n: uint64)
    requires Enabled(w, e)
    ensures
      var cache, cache' := w.h.transactions, After(w, e).h.transactions;
      && (Sends(e, n) ==> n in cache' && cache'[n] == e.tx)
      && (e.DropAll? ==> n !in cache')
      && (e.Sweep? && (n <= e.account || e.account == w.h.counter.computed) ==> n !in cache')
      && (!Sends(e, n) && !e.DropAll? && !(e.Sweep? && (n <= e.account || e.account == w.h.counter.computed)) ==>
            (n in cache' <==> n in cache) && (n in cache ==> cache'[n] == cache[n]))
  {
  }

  /**
   After any run, stale sweeps and overlapping calls included, the handler holds under a nonce exactly the last
   transaction sent under it, if it was neither dropped since nor taken out by a sweep at or above the nonce, or on the
   shortcut.
   */
  lemma {:induction false} CacheIsLastSent(run: seq<Event>, n: uint64)
    requires Exec(START, run).Some?
    ensures
      var cache := Exec(START, run).value.h.transactions;
      && (n in cache <==> exists i: nat :: LastSentAt(run, i, n))
      && (forall i: nat :: LastSentAt(run, i, n) ==> n in cache && cache[n] == run[i].tx)
    decreases |run|
  {
    if run != [] {
      var init, last := run[..|run| - 1], |run| - 1;
      LastWorld(run);
      CacheIsLastSent(init, n);
      EventOnCache(Exec(START, init).value, run[last], n);
      forall i: nat | i < last
        ensures LastSentAt(run, i, n) <==> LastSentAt(init, i, n) && !Sends(run[last], n) && !Removes(run, last, n)
      {
        LastSentExtends(run, i, n);
      }
      if Sends(run[last], n) { assert LastSentAt(run, last, n); }
      if n in Exec(START, run).value.h.transactions && !Sends(run[last], n) {
        var i: nat :| LastSentAt(init, i, n);
        assert LastSentAt(run, i, n);
      }
    }
  }

  /** So a sweep off the shortcut keeps and resends every such transaction above its account nonce, and nothing else. */
  lemma SweepResendsLastSent(run: seq<Event>, account: uint64, n: uint64)
    requires Exec(START, run).Some? && account != Exec(START, run).value.h.counter.computed
    ensures
      var resent := SweepResult(Exec(START, run).value.h, account).transactions;
      && (n in resent <==> account < n && exists i: nat :: LastSentAt(run, i, n))
      && (forall i: nat :: LastSentAt(run, i, n) && account < n ==> n in resent && resent[n] == run[i].tx)
  {
    CacheIsLastSent(run, n);
  }
}
