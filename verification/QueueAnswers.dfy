/**
 The answers of the bounded queue: when exactly "full" and "empty" are given, that a value that comes out was passed
 to an enqueue, and what a call does that no other thread disturbs.
 */
module QueueAnswers {
  import opened Basics
  import Ring
  import opened TicketQueue

  // ---------- exact answers ----------

  /** "Full" is answered exactly at the tail, if the consumer of the ticket one turn before still has its cell. */
  lemma FullExactly(s: State, t: Tid)
    requires Inv(s) && Enabled(s, LoadSequence(t)) && s.calls[t].EnqAt?
    ensures Reply(s, LoadSequence(t)) == Some(Full) <==>
      s.calls[t].pos == s.tail && s.tail >= |s.cells| && s.status[s.tail - |s.cells|] != Released
  {
    hide Ring.Slot;
    hide At;
    assert CallOk(s, t);
    var pos := s.calls[t].pos;
    FreeForTail(s);
    if pos < s.tail {
      SequenceAtLeast(s, pos);
    }
  }

  /** "Empty" is answered exactly at the head, if there is no ticket or its producer has not published it. */
  lemma EmptyExactly(s: State, t: Tid)
    requires Inv(s) && Enabled(s, LoadSequence(t)) && s.calls[t].DeqAt?
    ensures Reply(s, LoadSequence(t)) == Some(Nothing) <==>
      s.calls[t].pos == s.head && (s.head == s.tail || s.status[s.head].Claimed?)
  {
    hide Ring.Slot;
    hide At;
    assert CallOk(s, t);
    var pos := s.calls[t].pos;
    FreeForTail(s);
    if pos < s.head {
      SequenceAtLeast(s, pos);
    } else if s.head < s.tail {
      assert TicketOk(s, s.head);
    }
  }

  predicate Enqueuing(pc: Pc) {
    pc.Enqueue? || pc.EnqAt? || pc.EnqSeen? || pc.EnqOwns? || pc.EnqWrote?
  }

  /** A call ends exactly with its answer: an enqueue with "enqueued" or "full", a dequeue with a value or "empty". */
  lemma EndsWithAnswer(s: State, a: Action, t: Tid)
    requires Enabled(s, a) && t in s.calls
    ensures t !in Next(s, a).calls <==> a.t == t && Reply(s, a).Some?
    ensures t !in Next(s, a).calls ==>
      if Enqueuing(s.calls[t]) then Reply(s, a).value in {Enqueued, Full}
      else Reply(s, a).value == Nothing || Reply(s, a).value.Dequeued?
    ensures t in Next(s, a).calls ==> (Enqueuing(Next(s, a).calls[t]) <==> Enqueuing(s.calls[t]))
  {
    hide Ring.Slot;
    hide At;
    hide Set;
  }

  // ---------- whose value it is ----------

  predicate Carries(pc: Pc, v: Value) {
    (pc.Enqueue? || pc.EnqAt? || pc.EnqSeen? || pc.EnqOwns?) && pc.data == v
  }

  lemma CarriedBefore(s: State, a: Action, t: Tid, v: Value)
    requires Enabled(s, a) && t in Next(s, a).calls && Carries(Next(s, a).calls[t], v)
    ensures (t in s.calls && Carries(s.calls[t], v)) || a == Call(t, Enqueue(v))
  {
    hide Ring.Slot;
    hide At;
    hide Set;
  }

  lemma {:induction false} CalledWith(run: seq<State>, actions: seq<Action>, i: nat, t: Tid, v: Value) returns (h: nat)
    requires IsRun(run, actions) && i < |run| && t in run[i].calls && Carries(run[i].calls[t], v)
    ensures h < i && actions[h] == Call(t, Enqueue(v))
    decreases i
  {
    hide Next;
    hide Enabled;
    assert i > 0;
    assert Enabled(run[i - 1], actions[i - 1]) && run[i - 1 + 1] == Next(run[i - 1], actions[i - 1]);
    CarriedBefore(run[i - 1], actions[i - 1], t, v);
    if actions[i - 1] == Call(t, Enqueue(v)) {
      h := i - 1;
    } else {
      h := CalledWith(run, actions, i - 1, t, v);
    }
  }

  /**
   In every run, the value a dequeue answers is one that an earlier call passed to enqueue; that call claimed the
   ticket under which the value comes out, and no other dequeue answers with that ticket.
   */
  lemma AnsweredValue(run: seq<State>, actions: seq<Action>, i: nat) returns (v: Value, h: nat, j: nat)
    requires IsRun(run, actions) && i < |actions| && actions[i].Release?
    ensures Enabled(run[i], actions[i]) && Reply(run[i], actions[i]) == Some(Dequeued(v))
    ensures h < j < i && ClaimStep(run, actions, j, run[i].calls[actions[i].t].pos, v)
    ensures actions[h] == Call(actions[j].t, Enqueue(v))
    ensures forall k {:trigger run[k]} :: i < k < |actions| && actions[k].Release? ==>
      Enabled(run[k], actions[k]) && run[k].calls[actions[k].t].pos != run[i].calls[actions[i].t].pos
  {
    hide Next;
    j := Delivered(run, actions, i);
    v := run[i].calls[actions[i].t].value;
    h := CalledWith(run, actions, j, actions[j].t, v);
  }

  // ---------- a call on its own ----------

  /** The actions lead from one state to the other. */
  ghost predicate Leads(s: State, actions: seq<Action>, z: State)
    decreases |actions|
  {
    if actions == [] then s == z
    else
      var n := |actions| - 1;
      exists m :: Leads(s, actions[..n], m) && Enabled(m, actions[n]) && z == Next(m, actions[n])
  }

  lemma LeadsNone(s: State)
    ensures Leads(s, [], s)
  {
  }

  lemma LeadsMore(s: State, actions: seq<Action>, m: State, a: Action)
    requires Leads(s, actions, m) && Enabled(m, a) && Inv(m)
    ensures Leads(s, actions + [a], Next(m, a)) && Inv(Next(m, a))
  {
    hide Inv;
    hide Next;
    hide Enabled;
    assert (actions + [a])[..|actions|] == actions;
    StepInv(m, a);
  }

  /** There is room for one more item: the cell at the tail was never used, or has been released. */
  predicate Room(s: State)
    requires Cursors(s)
  {
    s.tail < |s.cells| || s.status[s.tail - |s.cells|] == Released
  }

  /** The oldest item is there to be taken. */
  predicate Ready(s: State)
    requires Cursors(s)
  {
    s.head < s.tail && s.status[s.head] == Published
  }

  lemma InvCursors(s: State)
    requires Inv(s)
    ensures Cursors(s) && |s.cells| > 0
  {
  }

  /** Two steps bring a call to the cell of the next ticket. */
  lemma Looks(s: State, t: Tid, pc: Pc) returns (m: State)
    requires Inv(s) && t !in s.calls && (pc.Enqueue? || pc.Dequeue?)
    ensures Inv(m) && Leads(s, [Call(t, pc), LoadCursor(t)], m)
    ensures m == s.(calls := s.calls[t := if pc.Enqueue? then EnqAt(pc.data, s.tail) else DeqAt(s.head)])
  {
    hide Inv;
    hide Leads;
    hide Ring.Slot;
    InvCursors(s);
    LeadsNone(s);
    LeadsMore(s, [], s, Call(t, pc));
    assert [] + [Call(t, pc)] == [Call(t, pc)];
    var s1 := Next(s, Call(t, pc));
    InvCursors(s1);
    LeadsMore(s, [Call(t, pc)], s1, LoadCursor(t));
    assert [Call(t, pc)] + [LoadCursor(t)] == [Call(t, pc), LoadCursor(t)];
    m := Next(s1, LoadCursor(t));
    assert m.calls == s.calls[t := if pc.Enqueue? then EnqAt(pc.data, s.tail) else DeqAt(s.head)];
  }

  /** What an enqueue at the tail makes of the cell. */
  lemma EnqueueJudges(m: State, s: State, t: Tid, data: Value)
    requires Inv(m) && t !in s.calls && m == s.(calls := s.calls[t := EnqAt(data, s.tail)])
    ensures Cursors(s) && Enabled(m, LoadSequence(t))
    ensures Room(s) ==>
      Reply(m, LoadSequence(t)) == None && Next(m, LoadSequence(t)) == s.(calls := s.calls[t := EnqSeen(data, s.tail)])
    ensures !Room(s) ==> Reply(m, LoadSequence(t)) == Some(Full) && Next(m, LoadSequence(t)) == s
  {
    hide Inv;
    hide Ring.Slot;
    hide At;
    InvCursors(m);
    FullExactly(m, t);
    FreeForTail(m);
    assert m.calls - {t} == s.calls;
    assert m.calls[t := EnqSeen(data, s.tail)] == s.calls[t := EnqSeen(data, s.tail)];
  }

  /** An enqueue that nothing disturbs puts its value under the next ticket and says so, or answers "full". */
  lemma EnqueueAlone(s: State, t: Tid, data: Value) returns (actions: seq<Action>, m: State, last: Action)
    requires Inv(s) && t !in s.calls
    ensures Leads(s, actions, m) && Enabled(m, last) && last.t == t && Cursors(s)
    ensures Room(s) ==>
      var z := Next(m, last);
      && Reply(m, last) == Some(Enqueued) && z.items == s.items + [data] && z.status == s.status + [Published]
      && z.calls == s.calls && z.head == s.head
    ensures !Room(s) ==> Reply(m, last) == Some(Full) && Next(m, last) == s
  {
    hide Inv;
    hide Leads;
    hide Ring.Slot;
    hide At;
    hide Set;
    InvCursors(s);
    m := Looks(s, t, Enqueue(data));
    actions := [Call(t, Enqueue(data)), LoadCursor(t)];
    last := LoadSequence(t);
    EnqueueJudges(m, s, t, data);
    if Room(s) {
      LeadsMore(s, actions, m, last);
      actions, m := actions + [last], Next(m, last);
      LeadsMore(s, actions, m, ClaimTail(t));
      actions, m := actions + [ClaimTail(t)], Next(m, ClaimTail(t));
      LeadsMore(s, actions, m, WriteData(t));
      actions, m := actions + [WriteData(t)], Next(m, WriteData(t));
      last := Publish(t);
      assert Next(m, last).calls == s.calls;
    }
  }

  /** What a dequeue at the head makes of the cell. */
  lemma DequeueJudges(m: State, s: State, t: Tid)
    requires Inv(m) && t !in s.calls && m == s.(calls := s.calls[t := DeqAt(s.head)])
    ensures Cursors(s) && Enabled(m, LoadSequence(t))
    ensures Ready(s) ==>
      Reply(m, LoadSequence(t)) == None && Next(m, LoadSequence(t)) == s.(calls := s.calls[t := DeqSeen(s.head)])
    ensures !Ready(s) ==> Reply(m, LoadSequence(t)) == Some(Nothing) && Next(m, LoadSequence(t)) == s
  {
    hide Ring.Slot;
    hide At;
    EmptyExactly(m, t);
    if s.head < s.tail {
      assert TicketOk(m, s.head);
    }
    assert m.calls - {t} == s.calls;
    assert m.calls[t := DeqSeen(s.head)] == s.calls[t := DeqSeen(s.head)];
  }

  /** A dequeue that nothing disturbs takes the oldest item and answers with it, or answers "empty". */
  lemma DequeueAlone(s: State, t: Tid) returns (actions: seq<Action>, m: State, last: Action)
    requires Inv(s) && t !in s.calls
    ensures Leads(s, actions, m) && Enabled(m, last) && last.t == t && Cursors(s)
    ensures Ready(s) ==>
      var z := Next(m, last);
      && Reply(m, last) == Some(Dequeued(s.items[s.head])) && z.items == s.items && z.head == s.head + 1
      && z.status == s.status[s.head := Released] && z.calls == s.calls && z.tail == s.tail
    ensures !Ready(s) ==> Reply(m, last) == Some(Nothing) && Next(m, last) == s
  {
    hide Inv;
    hide Leads;
    hide Ring.Slot;
    hide At;
    hide Set;
    InvCursors(s);
    m := Looks(s, t, Dequeue);
    actions := [Call(t, Dequeue), LoadCursor(t)];
    last := LoadSequence(t);
    DequeueJudges(m, s, t);
    if Ready(s) {
      LeadsMore(s, actions, m, last);
      actions, m := actions + [last], Next(m, last);
      LeadsMore(s, actions, m, ClaimHead(t));
      actions, m := actions + [ClaimHead(t)], Next(m, ClaimHead(t));
      LeadsMore(s, actions, m, ReadData(t));
      actions, m := actions + [ReadData(t)], Next(m, ReadData(t));
      ValueRead(m, s.head, t);
      last := Release(t);
      assert Next(m, last).calls == s.calls;
      assert s.status[s.head := Taken(t)][s.head := Released] == s.status[s.head := Released];
    }
  }

  lemma ValueRead(m: State, p: nat, t: Tid)
    requires Inv(m) && t in m.calls && m.calls[t].DeqRead? && m.calls[t].pos == p
    ensures p < |m.items| && m.calls[t].value == m.items[p]
  {
    hide Ring.Slot;
    hide At;
    assert CallOk(m, t) && TicketOk(m, p);
  }
}
