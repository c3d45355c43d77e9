/** Indices that wrap around, as the open-addressing tables and the bounded queues use them. */
module Ring {

  function Next(i: nat, n: nat): (j: nat)
    requires i < n
    ensures j < n
  {
    if i + 1 == n then 0 else i + 1
  }

  function Prev(i: nat, n: nat): (j: nat)
    requires i < n
    ensures j < n && Next(j, n) == i
  {
    if i == 0 then n - 1 else i - 1
  }

  /** The index d steps after h. */
  function Steps(h: nat, d: nat, n: nat): (j: nat)
    requires h < n
    ensures j < n
  {
    if d == 0 then h else Next(Steps(h, d - 1, n), n)
  }

  /** Steps needed from i to j. */
  function Distance(i: nat, j: nat, n: nat): (d: nat)
    requires i < n && j < n
    ensures d < n
  {
    if i <= j then j - i else j + n - i
  }

  lemma DistanceNext(i: nat, j: nat, n: nat)
    requires i < n && j < n && i != j
    ensures Distance(Next(i, n), j, n) == Distance(i, j, n) - 1
  {
  }

  /** Fewer keys than indices leave an index free. */
  lemma {:induction false} FreeIndex<K>(at: map<K, nat>, n: nat) returns (j: nat)
    requires |at| < n
    ensures j < n && forall k :: k in at ==> at[k] != j
    decreases n
  {
    if k :| k in at && at[k] == n - 1 {
      var rest := at - {k};
      assert |rest| == |at| - 1 by { assert rest.Keys == at.Keys - {k}; }
      j := FreeIndex(rest, n - 1);
      assert forall x :: x in at ==> x == k || x in rest;
    } else {
      j := n - 1;
    }
  }

  predicate OneToOne<K>(at: map<K, nat>) {
    forall j, k :: j in at && k in at && at[j] == at[k] ==> j == k
  }

  lemma {:induction false} AtMost<K>(at: map<K, nat>, n: nat)
    requires OneToOne(at) && forall k :: k in at ==> at[k] < n
    ensures |at| <= n
    decreases n
  {
    if k :| k in at && at[k] == n - 1 {
      var rest := at - {k};
      assert |rest| == |at| - 1 by { assert rest.Keys == at.Keys - {k}; }
      AtMost(rest, n - 1);
    } else if n > 0 {
      AtMost(at, n - 1);
    } else {
      assert at.Keys == {};
    }
  }

  /** As many keys as indices leave none free. */
  lemma NoFreeIndex<K>(at: map<K, nat>, n: nat, i: nat)
    requires OneToOne(at) && (forall k :: k in at ==> at[k] < n) && |at| == n && i < n
    ensures exists k :: k in at && at[k] == i
  {
    if forall k :: k in at ==> at[k] != i {
      var moved := map k | k in at :: if at[k] == n - 1 then i else at[k];
      assert |moved| == |at| by { assert moved.Keys == at.Keys; }
      AtMost(moved, n - 1);
    }
  }

  /** The slot of a position that only ever grows: the position modulo the number of slots. */
  function Slot(p: nat, n: nat): (i: nat)
    requires n > 0
    ensures i < n
  {
    if p < n then p else Slot(p - n, n)
  }

  lemma {:induction false} SlotDistinct(p: nat, q: nat, n: nat)
    requires n > 0 && p < q < p + n
    ensures Slot(p, n) != Slot(q, n)
  {
    if p >= n {
      SlotDistinct(p - n, q - n, n);
    }
  }

  lemma SlotAgain(p: nat, n: nat)
    requires n > 0
    ensures Slot(p + n, n) == Slot(p, n)
  {
  }

  lemma {:induction false} SlotAhead(p: nat, d: nat, n: nat)
    requires n > 0 && Slot(p, n) + d < n
    ensures Slot(p + d, n) == Slot(p, n) + d
  {
    if p >= n {
      SlotAhead(p - n, d, n);
    }
  }
}
