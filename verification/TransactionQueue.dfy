/**
 The priority queue of the V3 transaction worker: the queue's own Push, Pop, Swap and Less,
 driven by the sift-up and sift-down loops of Go's container/heap.
 */
module TransactionQueues {
  import opened GoTypes

  datatype Transaction = Transaction(nonce: uint64, payload: Bytes)

  class Item {
    const tx: Transaction
    var index: int

    constructor (tx: Transaction)
      ensures this.tx == tx
    {
      this.tx := tx;
      index := 0;
    }
  }

  /** Go truncates toward zero, so the parent of slot 0 is slot 0. */
  function Parent(k: nat): nat {
    if k == 0 then 0 else (k - 1) / 2
  }

  function Key(s: seq<Item>, k: nat): uint64
    requires k < |s|
  {
    s[k].tx.nonce
  }

  ghost predicate Ordered(s: seq<Item>, n: nat)
    requires n <= |s|
  {
    forall k: nat :: 0 < k < n ==> Key(s, Parent(k)) <= Key(s, k)
  }

  /** Heap order everywhere except between slot `hole` and its parent. */
  ghost predicate OrderedAbove(s: seq<Item>, hole: nat) {
    && (forall k: nat :: 0 < k < |s| && k != hole ==> Key(s, Parent(k)) <= Key(s, k))
    && (forall k: nat :: 0 < k < |s| && Parent(k) == hole && 0 < hole < |s| ==> Key(s, Parent(hole)) <= Key(s, k))
  }

  /** Heap order on the first n slots except between slot `hole` and its children. */
  ghost predicate OrderedBelow(s: seq<Item>, hole: nat, n: nat)
    requires n <= |s|
  {
    && (forall k: nat :: 0 < k < n && Parent(k) != hole ==> Key(s, Parent(k)) <= Key(s, k))
    && (forall k: nat :: 0 < k < n && Parent(k) == hole && 0 < hole < n ==> Key(s, Parent(hole)) <= Key(s, k))
  }

  /** In a heap the root carries the least nonce of all. */
  lemma {:induction false} RootIsLeast(s: seq<Item>, k: nat)
    requires k < |s| && Ordered(s, |s|)
    ensures Key(s, 0) <= Key(s, k)
  {
    if k != 0 {
      RootIsLeast(s, Parent(k));
    }
  }

  function Exchanged(s: seq<Item>, a: nat, b: nat): seq<Item>
    requires a < |s| && b < |s|
  {
    s[a := s[b]][b := s[a]]
  }

  function Txs(s: seq<Item>): seq<Transaction> {
    seq(|s|, i requires 0 <= i < |s| => s[i].tx)
  }

  /** The same items in any order carry the same transactions. */
  lemma {:induction false} SameItemsSameTxs(s: seq<Item>, t: seq<Item>)
    requires multiset(s) == multiset(t)
    ensures multiset(Txs(s)) == multiset(Txs(t))
    decreases |s|
  {
    if s == [] {
      assert |multiset(t)| == 0;
    } else {
      assert s[0] in multiset(t);
      var k :| 0 <= k < |t| && t[k] == s[0];
      TakeOut(s, 0);
      TakeOut(t, k);
      SameItemsSameTxs(Without(s, 0), Without(t, k));
    }
  }

  function Without(s: seq<Item>, k: nat): seq<Item>
    requires k < |s|
  {
    s[..k] + s[k + 1..]
  }

  lemma TakeOut(s: seq<Item>, k: nat)
    requires k < |s|
    ensures multiset(Without(s, k)) == multiset(s) - multiset{s[k]}
    ensures multiset(Txs(s)) == multiset(Txs(Without(s, k))) + multiset{s[k].tx}
  {
    assert s == s[..k] + [s[k]] + s[k + 1..];
    assert multiset(s) == multiset(Without(s, k)) + multiset{s[k]};
    assert Txs(s) == Txs(s[..k]) + [s[k].tx] + Txs(s[k + 1..]);
    assert Txs(Without(s, k)) == Txs(s[..k]) + Txs(s[k + 1..]);
  }

  ghost predicate IsLeast(tx: Transaction, queue: multiset<Transaction>) {
    tx in queue && forall other :: other in queue ==> tx.nonce <= other.nonce
  }

  lemma LeastItemIsLeast(s: seq<Item>, tx: Transaction)
    requires tx in multiset(Txs(s)) && forall k: nat :: k < |s| ==> tx.nonce <= s[k].tx.nonce
    ensures IsLeast(tx, multiset(Txs(s)))
  {
    forall other: Transaction | other in multiset(Txs(s)) ensures tx.nonce <= other.nonce {
      var k :| 0 <= k < |s| && Txs(s)[k] == other;
    }
  }

  ghost predicate SameItems(s: seq<Item>, t: seq<Item>) {
    multiset(s) == multiset(t) && forall k: nat :: k < |s| ==> s[k] in t
  }

  ghost predicate TailKept(s: seq<Item>, t: seq<Item>, n: nat) {
    |s| == |t| && forall k: nat :: n <= k < |s| ==> s[k] == t[k]
  }

  lemma ExchangeKeepsItems(s: seq<Item>, a: nat, b: nat)
    requires a < |s| && b < |s|
    ensures SameItems(Exchanged(s, a, b), s)
  {
    assert multiset(Exchanged(s, a, b)) == multiset(s);
  }

  /** One turn of the sift-up loop moves the hole to the parent. */
  lemma UpStep(s: seq<Item>, j: nat)
    requires 0 < j < |s| && OrderedAbove(s, j) && Key(s, j) < Key(s, Parent(j))
    ensures OrderedAbove(Exchanged(s, Parent(j), j), Parent(j))
  {
  }

  /** One turn of the sift-down loop moves the hole to the lesser child. */
  lemma DownStep(s: seq<Item>, i: nat, j: nat, n: nat)
    requires n <= |s| && 0 < j < n && Parent(j) == i && OrderedBelow(s, i, n) && Key(s, j) < Key(s, i)
    requires forall k: nat :: 0 < k < n && Parent(k) == i ==> Key(s, j) <= Key(s, k)
    ensures OrderedBelow(Exchanged(s, i, j), j, n)
  {
    var t := Exchanged(s, i, j);
    forall k: nat | 0 < k < n && Parent(k) != j ensures Key(t, Parent(k)) <= Key(t, k) {
      if Parent(k) == i {
        assert Key(t, i) == Key(s, j);
      } else if k != i {
        assert t[k] == s[k] && t[Parent(k)] == s[Parent(k)];
      }
    }
    forall k: nat | 0 < k < n && Parent(k) == j ensures Key(t, Parent(j)) <= Key(t, k) {
      assert t[k] == s[k];
    }
  }

  /** Swapping the root of a heap to the end leaves one hole, at the root, and a least element at the end. */
  lemma RootToEnd(s: seq<Item>)
    requires s != [] && Ordered(s, |s|)
    ensures OrderedBelow(Exchanged(s, 0, |s| - 1), 0, |s| - 1)
    ensures forall k: nat :: k < |s| ==> s[0].tx.nonce <= s[k].tx.nonce
  {
    forall k: nat | k < |s| ensures s[0].tx.nonce <= s[k].tx.nonce { RootIsLeast(s, k); }
  }

  class TransactionQueue {
    var tq: seq<Item>

    /** Every item knows its slot; hence no item is queued twice. */
    ghost predicate Indexed()
      reads this, tq
    {
      forall i: nat :: i < |tq| ==> tq[i].index == i
    }

    ghost predicate Valid()
      reads this, tq
    {
      Indexed() && Ordered(tq, |tq|)
    }

    constructor ()
      ensures Valid() && tq == []
    {
      tq := [];
    }

    method Less(a: nat, b: nat) returns (less: bool)
      requires a < |tq| && b < |tq|
      ensures less <==> Key(tq, a) < Key(tq, b)
    {
      less := tq[a].tx.nonce < tq[b].tx.nonce;
    }

    method Swap(a: nat, b: nat)
      requires a < |tq| && b < |tq| && Indexed()
      modifies this, tq
      ensures Indexed() && tq == Exchanged(old(tq), a, b) && SameItems(tq, old(tq))
    {
      ExchangeKeepsItems(tq, a, b);
      tq := tq[a := tq[b]][b := tq[a]];
      tq[a].index := a;
      tq[b].index := b;
    }

    /** The queue's own Push: append without restoring the order. */
    method PushLast(item: Item)
      requires Indexed() && item !in tq
      modifies this, item
      ensures Indexed() && tq == old(tq) + [item]
    {
      item.index := |tq|;
      tq := tq + [item];
    }

    /** The queue's own Pop: cut off the last slot. */
    method PopLast() returns (item: Item)
      requires Indexed() && tq != []
      modifies this, tq
      ensures Indexed() && old(tq) == tq + [item] && item.index == -1
    {
      var n := |tq|;
      item := tq[n - 1];
      item.index := -1;
      tq := tq[..n - 1];
    }

    method Up(start: nat)
      requires start < |tq| && Indexed() && OrderedAbove(tq, start)
      modifies this, tq
      ensures Valid() && SameItems(tq, old(tq))
    {
      var j: nat := start;
      while true
        invariant j < |tq| && Indexed() && OrderedAbove(tq, j)
        invariant SameItems(tq, old(tq))
        decreases j
      {
        var i := Parent(j);
        var less := Less(j, i);
        if i == j || !less { break; }
        UpStep(tq, j);
        Swap(i, j);
        j := i;
      }
    }

    method LesserChild(i: nat, n: nat) returns (j: nat)
      requires 2 * i + 1 < n <= |tq|
      ensures 0 < j < n && Parent(j) == i
      ensures forall k: nat :: 0 < k < n && Parent(k) == i ==> Key(tq, j) <= Key(tq, k)
    {
      var j1 := 2 * i + 1;
      j := j1;
      if j1 + 1 < n {
        var right := Less(j1 + 1, j1);
        if right { j := j1 + 1; }
      }
    }

    method Down(start: nat, n: nat)
      requires n <= |tq| && Indexed() && OrderedBelow(tq, start, n)
      modifies this, tq
      ensures n <= |tq| && Indexed() && Ordered(tq, n) && TailKept(tq, old(tq), n)
      ensures SameItems(tq, old(tq))
    {
      var i: nat := start;
      while true
        invariant n <= |tq| && Indexed() && OrderedBelow(tq, i, n) && TailKept(tq, old(tq), n)
        invariant SameItems(tq, old(tq))
        decreases n - i
      {
        var j1 := 2 * i + 1;
        if j1 >= n { break; }
        var j := LesserChild(i, n);
        var less := Less(j, i);
        if !less { break; }
        DownStep(tq, i, j, n);
        Swap(i, j);
        i := j;
      }
    }

    /** heap.Push: append, then sift up. */
    method Push(item: Item)
      requires Valid() && item !in tq
      modifies this, tq, item
      ensures Valid() && multiset(tq) == old(multiset(tq)) + multiset{item}
    {
      PushLast(item);
      Up(|tq| - 1);
    }

    /** The part of heap.Pop before the cut: the root goes to the last slot, the rest is a heap again. */
    method MoveRootLast()
      requires Valid() && tq != []
      modifies this, tq
      ensures |tq| == |old(tq)| && Indexed() && Ordered(tq, |tq| - 1) && SameItems(tq, old(tq))
      ensures forall k: nat :: k < |old(tq)| ==> tq[|tq| - 1].tx.nonce <= old(tq)[k].tx.nonce
    {
      RootToEnd(tq);
      var n := |tq| - 1;
      Swap(0, n);
      Down(0, n);
    }

    /** heap.Pop: the least item leaves, everything else stays. */
    method Pop() returns (item: Item)
      requires Valid() && tq != []
      modifies this, tq
      ensures Valid() && item.index == -1
      ensures old(multiset(tq)) == multiset(tq) + multiset{item}
      ensures forall k: nat :: k < |old(tq)| ==> item.tx.nonce <= old(tq)[k].tx.nonce
    {
      MoveRootLast();
      item := PopLast();
    }

    /** The queue seen by the worker: a bag of transactions that grows by one. */
    method PushTx(tx: Transaction)
      requires Valid()
      modifies this, tq
      ensures Valid() && multiset(Txs(tq)) == old(multiset(Txs(tq))) + multiset{tx}
    {
      var item := new Item(tx);
      ghost var appended := tq + [item];
      Push(item);
      SameItemsSameTxs(tq, appended);
      assert Txs(appended) == old(Txs(tq)) + [tx];
    }

    /** The queue seen by the worker: a bag of transactions from which a least one is taken. */
    method PopTx() returns (tx: Transaction)
      requires Valid() && tq != []
      modifies this, tq
      ensures Valid() && IsLeast(tx, old(multiset(Txs(tq))))
      ensures multiset(Txs(tq)) == old(multiset(Txs(tq))) - multiset{tx}
    {
      ghost var before := tq;
      var item := Pop();
      tx := item.tx;
      SameItemsSameTxs(before, tq + [item]);
      assert Txs(tq + [item]) == Txs(tq) + [tx];
      LeastItemIsLeast(before, tx);
    }
  }
}
