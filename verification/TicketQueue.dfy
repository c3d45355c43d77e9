/**
 The bounded multi-producer multi-consumer queue. A thread claims a ticket by moving `tail` or `head`; the
 sequence number of the ticket's cell says whether it is free for that ticket, filled, or still in use.

 `items` and `status`, both indexed by ticket, are not in the program: what the producer of a ticket puts in, and
 how far the ticket has come.
 */
module TicketQueue {
  import opened Basics
  import opened Ring

  type Tid = nat
  type Value = nat

  datatype Cell = Cell(sequence: nat, data: Value)

  datatype Pc =
    | Enqueue(data: Value)
    | EnqAt(data: Value, pos: nat)
    | EnqSeen(data: Value, pos: nat)
    | EnqOwns(data: Value, pos: nat)
    | EnqWrote(pos: nat)
    | Dequeue
    | DeqAt(pos: nat)
    | DeqSeen(pos: nat)
    | DeqOwns(pos: nat)
    | DeqRead(pos: nat, value: Value)

  datatype Status = Claimed(t: Tid) | Published | Taken(t: Tid) | Released

  datatype State = State(
    cells: seq<Cell>,
    head: nat,
    tail: nat,
    calls: map<Tid, Pc>,
    items: seq<Value>,
    status: seq<Status>)

  datatype Action =
    | Call(t: Tid, pc: Pc)
    | LoadCursor(t: Tid)
    | LoadSequence(t: Tid)
    | ClaimTail(t: Tid)
    | ClaimHead(t: Tid)
    | LoseClaim(t: Tid)
    | WriteData(t: Tid)
    | ReadData(t: Tid)
    | Publish(t: Tid)
    | Release(t: Tid)

  datatype Answer = Enqueued | Full | Dequeued(value: Value) | Nothing

  predicate Init(s: State) {
    && |s.cells| >= 2 && (forall i :: 0 <= i < |s.cells| ==> s.cells[i].sequence == i)
    && s.head == 0 && s.tail == 0 && s.calls == map[] && s.items == [] && s.status == []
  }

  function At(cells: seq<Cell>, pos: nat): Cell
    requires |cells| > 0
  {
    cells[Slot(pos, |cells|)]
  }

  function Set(cells: seq<Cell>, pos: nat, c: Cell): (r: seq<Cell>)
    requires |cells| > 0
    ensures |r| == |cells|
  {
    cells[Slot(pos, |cells|) := c]
  }

  predicate Enabled(s: State, a: Action) {
    |s.cells| > 0 &&
    match a
    case Call(t, pc) => t !in s.calls && (pc.Enqueue? || pc.Dequeue?)
    case LoadCursor(t) => t in s.calls && (s.calls[t].Enqueue? || s.calls[t].Dequeue?)
    case LoadSequence(t) => t in s.calls && (s.calls[t].EnqAt? || s.calls[t].DeqAt?)
    case ClaimTail(t) => t in s.calls && s.calls[t].EnqSeen? && s.tail == s.calls[t].pos
    case ClaimHead(t) => t in s.calls && s.calls[t].DeqSeen? && s.head == s.calls[t].pos && s.head < |s.status|
    case LoseClaim(t) => t in s.calls && (s.calls[t].EnqSeen? || s.calls[t].DeqSeen?)
    case WriteData(t) => t in s.calls && s.calls[t].EnqOwns?
    case ReadData(t) => t in s.calls && s.calls[t].DeqOwns?
    case Publish(t) => t in s.calls && s.calls[t].EnqWrote? && s.calls[t].pos < |s.status|
    case Release(t) => t in s.calls && s.calls[t].DeqRead? && s.calls[t].pos < |s.status|
  }

  /** What the producer or the consumer makes of the sequence number it reads. */
  function Judge(s: State, pc: Pc): (next: Pc)
    requires |s.cells| > 0 && (pc.EnqAt? || pc.DeqAt?)
  {
    var sequence := At(s.cells, pc.pos).sequence;
    if pc.EnqAt? then if sequence == pc.pos then EnqSeen(pc.data, pc.pos) else Enqueue(pc.data)
    else if sequence == pc.pos + 1 then DeqSeen(pc.pos) else Dequeue
  }

  /** The sequence number is behind the ticket: the queue looks full to a producer, empty to a consumer. */
  predicate Behind(s: State, pc: Pc)
    requires |s.cells| > 0 && (pc.EnqAt? || pc.DeqAt?)
  {
    At(s.cells, pc.pos).sequence < (if pc.EnqAt? then pc.pos else pc.pos + 1)
  }

  function Reloaded(s: State, pc: Pc): Pc {
    match pc
    case Enqueue(data) => EnqAt(data, s.tail)
    case EnqSeen(data, _) => EnqAt(data, s.tail)
    case _ => DeqAt(s.head)
  }

  function Next(s: State, a: Action): State
    requires Enabled(s, a)
  {
    match a
    case Call(t, pc) => s.(calls := s.calls[t := pc])
    case LoadCursor(t) => s.(calls := s.calls[t := Reloaded(s, s.calls[t])])
    case LoadSequence(t) =>
      if Behind(s, s.calls[t]) then s.(calls := s.calls - {t}) else s.(calls := s.calls[t := Judge(s, s.calls[t])])
    case ClaimTail(t) =>
      s.(tail := s.tail + 1, items := s.items + [s.calls[t].data], status := s.status + [Claimed(t)],
         calls := s.calls[t := EnqOwns(s.calls[t].data, s.calls[t].pos)])
    case ClaimHead(t) =>
      s.(head := s.head + 1, status := s.status[s.head := Taken(t)], calls := s.calls[t := DeqOwns(s.calls[t].pos)])
    case LoseClaim(t) => s.(calls := s.calls[t := Reloaded(s, s.calls[t])])
    case WriteData(t) =>
      s.(cells := Set(s.cells, s.calls[t].pos, At(s.cells, s.calls[t].pos).(data := s.calls[t].data)),
         calls := s.calls[t := EnqWrote(s.calls[t].pos)])
    case ReadData(t) => s.(calls := s.calls[t := DeqRead(s.calls[t].pos, At(s.cells, s.calls[t].pos).data)])
    case Publish(t) =>
      s.(cells := Set(s.cells, s.calls[t].pos, At(s.cells, s.calls[t].pos).(sequence := s.calls[t].pos + 1)),
         status := s.status[s.calls[t].pos := Published], calls := s.calls - {t})
    case Release(t) =>
      s.(cells := Set(s.cells, s.calls[t].pos, At(s.cells, s.calls[t].pos).(sequence := s.calls[t].pos + |s.cells|)),
         status := s.status[s.calls[t].pos := Released], calls := s.calls - {t})
  }

  // ---------- invariant ----------

  predicate Owning(pc: Pc) {
    pc.EnqOwns? || pc.EnqWrote? || pc.DeqOwns? || pc.DeqRead?
  }

  predicate Cursors(s: State) {
    && |s.cells| >= 2 && |s.items| == s.tail && |s.status| == s.tail
    && s.head <= s.tail <= s.head + |s.cells|
  }

  predicate TicketOk(s: State, p: nat)
    requires Cursors(s) && p < s.tail
  {
    match s.status[p]
    case Claimed(t) =>
      && s.head <= p && t in s.calls && At(s.cells, p).sequence == p
      && (s.calls[t] == EnqOwns(s.items[p], p) || (s.calls[t] == EnqWrote(p) && At(s.cells, p).data == s.items[p]))
    case Published => s.head <= p && At(s.cells, p) == Cell(p + 1, s.items[p])
    case Taken(t) =>
      && p < s.head && s.tail <= p + |s.cells| && At(s.cells, p) == Cell(p + 1, s.items[p])
      && t in s.calls && (s.calls[t] == DeqOwns(p) || s.calls[t] == DeqRead(p, s.items[p]))
    case Released => p < s.head && (s.tail <= p + |s.cells| ==> At(s.cells, p).sequence == p + |s.cells|)
  }

  predicate CallOk(s: State, t: Tid)
    requires Cursors(s) && t in s.calls
  {
    match s.calls[t]
    case Enqueue(_) => true
    case EnqAt(_, pos) => pos <= s.tail
    case EnqSeen(_, pos) => pos <= s.tail && (pos == s.tail ==> At(s.cells, pos).sequence == pos)
    case EnqOwns(_, pos) => pos < s.tail && s.status[pos] == Claimed(t)
    case EnqWrote(pos) => pos < s.tail && s.status[pos] == Claimed(t)
    case Dequeue => true
    case DeqAt(pos) => pos <= s.head
    case DeqSeen(pos) => pos <= s.head && (pos == s.head ==> pos < s.tail && s.status[pos] == Published)
    case DeqOwns(pos) => pos < s.tail && s.status[pos] == Taken(t)
    case DeqRead(pos, _) => pos < s.tail && s.status[pos] == Taken(t)
  }

  /** Cells no ticket has used yet. */
  predicate Unused(s: State) {
    forall i :: s.tail <= i < |s.cells| ==> s.cells[i].sequence == i
  }

  predicate Inv(s: State) {
    && Cursors(s) && Unused(s)
    && (forall p :: 0 <= p < s.tail ==> TicketOk(s, p))
    && (forall t :: t in s.calls ==> CallOk(s, t))
  }

  /** Tickets less than a full turn apart use different cells. */
  lemma SetOther(cells: seq<Cell>, p: nat, q: nat, c: Cell)
    requires |cells| > 0 && p != q && q < p + |cells| && p < q + |cells|
    ensures At(Set(cells, p, c), q) == At(cells, q)
  {
    hide Slot;
    if p < q {
      SlotDistinct(p, q, |cells|);
    } else {
      SlotDistinct(q, p, |cells|);
    }
  }

  lemma SetSame(cells: seq<Cell>, p: nat, c: Cell)
    requires |cells| > 0
    ensures At(Set(cells, p, c), p) == c
  {
  }

  /** A cell that is free for the next ticket is not in use by an earlier one. */
  lemma FreeForTail(s: State)
    requires Inv(s)
    ensures At(s.cells, s.tail).sequence == s.tail ==> s.tail < s.head + |s.cells|
    ensures At(s.cells, s.tail).sequence == s.tail && s.tail >= |s.cells| ==> s.status[s.tail - |s.cells|] == Released
    ensures At(s.cells, s.tail).sequence < s.tail ==> s.tail >= |s.cells| && s.status[s.tail - |s.cells|] != Released
    ensures At(s.cells, s.tail).sequence <= s.tail
  {
    hide Slot;
    var n := |s.cells|;
    if s.tail >= n {
      SlotAgain(s.tail - n, n);
      assert TicketOk(s, s.tail - n);
    } else {
      SlotSmall(s.tail, n);
    }
  }

  lemma SlotSmall(p: nat, n: nat)
    requires p < n
    ensures Slot(p, n) == p
  {
  }

  // ---------- steps that only move a call ----------

  /** Only the call of thread t changes, and t owns no ticket before or after. */
  lemma MoveCall(s: State, t: Tid, calls: map<Tid, Pc>)
    requires Inv(s) && (t in s.calls ==> !Owning(s.calls[t]))
    requires calls - {t} == s.calls - {t}
    requires t in calls ==> CallOk(s.(calls := calls), t)
    ensures Inv(s.(calls := calls))
  {
    hide Slot;
    hide At;
    var s' := s.(calls := calls);
    forall x | x in calls && x != t
      ensures CallOk(s', x)
    {
      assert x in s.calls - {t} && s.calls[x] == (s.calls - {t})[x] == (calls - {t})[x];
      assert CallOk(s, x);
    }
    forall p | 0 <= p < s.tail
      ensures TicketOk(s', p)
    {
      assert TicketOk(s, p);
      if s.status[p].Claimed? || s.status[p].Taken? {
        var x := s.status[p].t;
        assert x != t;
        assert x in s.calls - {t} && s.calls[x] == (s.calls - {t})[x] == (calls - {t})[x];
      }
    }
  }

  // ---------- steps of the owner of a ticket ----------

  /** Thread t owns ticket p; only its call, the ticket's cell and the ticket's status may differ. */
  predicate OwnerMoves(s: State, s': State, t: Tid, p: nat)
    requires Cursors(s) && Cursors(s')
  {
    && p < s.tail && s.status[p] in {Claimed(t), Taken(t)}
    && s'.head == s.head && s'.tail == s.tail && s'.items == s.items
    && s'.calls - {t} == s.calls - {t}
    && s'.cells == Set(s.cells, p, At(s'.cells, p))
    && s'.status == s.status[p := s'.status[p]]
  }

  lemma OthersKept(s: State, s': State, t: Tid, p: nat, x: Tid)
    requires Inv(s) && Cursors(s') && OwnerMoves(s, s', t, p) && x != t
    ensures x in s.calls <==> x in s'.calls
    ensures x in s.calls ==> s'.calls[x] == s.calls[x]
  {
    hide Inv;
    assert x in s.calls <==> x in s.calls - {t};
    assert x in s'.calls <==> x in s'.calls - {t};
    if x in s.calls {
      assert s.calls[x] == (s.calls - {t})[x] && s'.calls[x] == (s'.calls - {t})[x];
    }
  }

  lemma OwnerTickets(s: State, s': State, t: Tid, p: nat, q: nat)
    requires Inv(s) && Cursors(s') && OwnerMoves(s, s', t, p) && q < s.tail && q != p
    requires t in s.calls && Owning(s.calls[t])
    requires s.calls[t].pos == p
    ensures TicketOk(s', q)
  {
    hide Slot;
    hide At;
    hide Set;
    assert TicketOk(s, q) && TicketOk(s, p);
    if s.status[q].Claimed? || s.status[q].Taken? {
      assert CallOk(s, s.status[q].t);
      OthersKept(s, s', t, p, s.status[q].t);
    }
    if s.tail <= q + |s.cells| {
      SetOther(s.cells, p, q, At(s'.cells, p));
    }
  }

  lemma OwnerCalls(s: State, s': State, t: Tid, p: nat, x: Tid)
    requires Inv(s) && Cursors(s') && OwnerMoves(s, s', t, p) && x != t && x in s'.calls
    ensures CallOk(s', x)
  {
    hide Slot;
    hide At;
    hide Set;
    OthersKept(s, s', t, p, x);
    assert CallOk(s, x) && TicketOk(s, p);
    if s.calls[x].EnqSeen? && s.calls[x].pos == s.tail {
      FreeForTail(s);
      SetOther(s.cells, p, s.tail, At(s'.cells, p));
    }
  }

  lemma OwnerUnused(s: State, s': State, t: Tid, p: nat)
    requires Inv(s) && Cursors(s') && OwnerMoves(s, s', t, p)
    ensures Unused(s')
  {
    hide Slot;
    hide At;
    forall i | s'.tail <= i < |s'.cells|
      ensures s'.cells[i].sequence == i
    {
      SlotDistinct(p, i, |s.cells|);
      SlotSmall(i, |s.cells|);
    }
  }

  lemma OwnerStep(s: State, s': State, t: Tid, p: nat)
    requires Inv(s) && Cursors(s') && OwnerMoves(s, s', t, p)
    requires t in s.calls && Owning(s.calls[t])
    requires s.calls[t].pos == p && TicketOk(s', p) && (t in s'.calls ==> CallOk(s', t))
    ensures Inv(s')
  {
    hide TicketOk;
    hide CallOk;
    hide OwnerMoves;
    hide Unused;
    assert s'.tail == s.tail by { OwnerTail(s, s', t, p); }
    OwnerUnused(s, s', t, p);
    forall q | 0 <= q < s'.tail
      ensures TicketOk(s', q)
    {
      if q != p {
        OwnerTickets(s, s', t, p, q);
      }
    }
    forall x | x in s'.calls
      ensures CallOk(s', x)
    {
      if x != t {
        OwnerCalls(s, s', t, p, x);
      }
    }
  }

  lemma OwnerTail(s: State, s': State, t: Tid, p: nat)
    requires Cursors(s) && Cursors(s') && OwnerMoves(s, s', t, p)
    ensures s'.tail == s.tail
  {
  }

  lemma WorkInv(s: State, a: Action)
    requires Inv(s) && Enabled(s, a) && (a.WriteData? || a.ReadData? || a.Publish? || a.Release?)
    ensures Inv(Next(s, a))
  {
    hide Slot;
    var p := s.calls[a.t].pos;
    var s' := Next(s, a);
    assert CallOk(s, a.t) && TicketOk(s, p);
    SetSame(s.cells, p, At(s'.cells, p));
    assert s'.cells == Set(s.cells, p, At(s'.cells, p));
    assert s'.status == s.status[p := s'.status[p]];
    assert s'.calls - {a.t} == s.calls - {a.t};
    OwnerStep(s, s', a.t, p);
  }

  // ---------- claims ----------

  lemma ClaimTailInv(s: State, t: Tid)
    requires Inv(s) && Enabled(s, ClaimTail(t))
    ensures Inv(Next(s, ClaimTail(t)))
  {
    hide Slot;
    hide At;
    var s' := Next(s, ClaimTail(t));
    assert CallOk(s, t);
    FreeForTail(s);
    forall p | 0 <= p < s'.tail
      ensures TicketOk(s', p)
    {
      if p < s.tail {
        assert TicketOk(s, p);
        if s.tail == p + |s.cells| {
          assert p == s.tail - |s.cells|;
        }
      }
    }
    forall x | x in s'.calls
      ensures CallOk(s', x)
    {
      if x != t {
        assert CallOk(s, x);
      }
    }
  }

  lemma ClaimHeadInv(s: State, t: Tid)
    requires Inv(s) && Enabled(s, ClaimHead(t))
    ensures Inv(Next(s, ClaimHead(t)))
  {
    hide Slot;
    hide At;
    var s' := Next(s, ClaimHead(t));
    assert CallOk(s, t) && TicketOk(s, s.head);
    forall p | 0 <= p < s'.tail
      ensures TicketOk(s', p)
    {
      assert TicketOk(s, p);
    }
    forall x | x in s'.calls
      ensures CallOk(s', x)
    {
      if x != t {
        assert CallOk(s, x);
      }
    }
  }

  /** What a consumer that finds its cell filled knows: its ticket is published, unless others have moved on. */
  lemma SeenOk(s: State, pc: Pc)
    requires Inv(s) && pc.DeqAt? && pc.pos <= s.head
    requires At(s.cells, pc.pos).sequence == pc.pos + 1 && pc.pos == s.head
    ensures pc.pos < s.tail && s.status[pc.pos] == Published
  {
    hide Slot;
    if s.head < s.tail {
      assert TicketOk(s, s.head);
    } else {
      FreeForTail(s);
    }
  }

  lemma MoveInv(s: State, a: Action)
    requires Inv(s) && Enabled(s, a) && (a.Call? || a.LoadCursor? || a.LoadSequence? || a.LoseClaim?)
    ensures Inv(Next(s, a))
  {
    hide Slot;
    hide At;
    hide Inv;
    var s' := Next(s, a);
    InvCall(s, a.t);
    if a.LoadSequence? && s.calls[a.t].DeqAt? && s.calls[a.t].pos == s.head && !Behind(s, s.calls[a.t]) &&
       At(s.cells, s.head).sequence == s.head + 1 {
      SeenOk(s, s.calls[a.t]);
    }
    assert s'.calls - {a.t} == s.calls - {a.t};
    MoveCall(s, a.t, s'.calls);
  }

  lemma InvCall(s: State, t: Tid)
    requires Inv(s)
    ensures Cursors(s) && (t in s.calls ==> CallOk(s, t))
  {
  }

  lemma StepInv(s: State, a: Action)
    requires Inv(s) && Enabled(s, a)
    ensures Inv(Next(s, a))
  {
    hide Inv;
    hide Next;
    hide Enabled;
    match a
    case ClaimTail(t) => ClaimTailInv(s, t);
    case ClaimHead(t) => ClaimHeadInv(s, t);
    case WriteData(_) => WorkInv(s, a);
    case ReadData(_) => WorkInv(s, a);
    case Publish(_) => WorkInv(s, a);
    case Release(_) => WorkInv(s, a);
    case _ => MoveInv(s, a);
  }

  // ---------- answers ----------

  function Reply(s: State, a: Action): Option<Answer>
    requires Enabled(s, a)
  {
    match a
    case LoadSequence(t) =>
      if !Behind(s, s.calls[t]) then None else if s.calls[t].EnqAt? then Some(Full) else Some(Nothing)
    case Publish(_) => Some(Enqueued)
    case Release(t) => Some(Dequeued(s.calls[t].value))
    case _ => None
  }

  lemma {:induction false} SequenceAtLeast(s: State, p: nat)
    requires Inv(s) && p < s.tail
    ensures At(s.cells, p).sequence >= p && (p < s.head ==> At(s.cells, p).sequence >= p + 1)
    decreases s.tail - p
  {
    hide Slot;
    assert TicketOk(s, p);
    if s.tail > p + |s.cells| {
      SequenceAtLeast(s, p + |s.cells|);
      SlotAgain(p, |s.cells|);
    }
  }

  /**
   "Full" is answered only when every cell is in use: the queue holds as many items as it has cells, or the consumer
   that took the oldest ticket has not yet given its cell back.
   */
  lemma FullAnswer(s: State, a: Action)
    requires Inv(s) && Enabled(s, a) && Reply(s, a) == Some(Full)
    ensures s.tail >= |s.cells| && (s.tail == s.head + |s.cells| || s.status[s.tail - |s.cells|].Taken?)
  {
    hide Slot;
    hide At;
    assert CallOk(s, a.t);
    var pos := s.calls[a.t].pos;
    if pos < s.tail {
      SequenceAtLeast(s, pos);
    } else {
      FreeForTail(s);
      assert TicketOk(s, s.tail - |s.cells|);
    }
  }

  /** "Empty" is answered only when there is no item, or the producer of the oldest one has not yet published it. */
  lemma EmptyAnswer(s: State, a: Action)
    requires Inv(s) && Enabled(s, a) && Reply(s, a) == Some(Nothing)
    ensures s.head == s.tail || s.status[s.head].Claimed?
  {
    hide Slot;
    hide At;
    assert CallOk(s, a.t);
    var pos := s.calls[a.t].pos;
    if pos < s.head {
      SequenceAtLeast(s, pos);
    } else if s.head < s.tail {
      assert TicketOk(s, s.head);
    }
  }

  // ---------- runs ----------

  ghost predicate IsRun(run: seq<State>, actions: seq<Action>) {
    && |run| == |actions| + 1 && Init(run[0])
    && forall i :: 0 <= i < |actions| ==> Enabled(run[i], actions[i]) && run[i + 1] == Next(run[i], actions[i])
  }

  lemma {:induction false} RunInv(run: seq<State>, actions: seq<Action>, i: nat)
    requires IsRun(run, actions) && i < |run|
    ensures Inv(run[i])
  {
    hide Next;
    hide Enabled;
    if i > 0 {
      RunInv(run, actions, i - 1);
      hide Inv;
      assert run[i - 1 + 1] == Next(run[i - 1], actions[i - 1]);
      StepInv(run[i - 1], actions[i - 1]);
    }
  }

  /** The producer's claim of ticket p. */
  ghost predicate ClaimStep(run: seq<State>, actions: seq<Action>, j: nat, p: nat, v: Value)
    requires IsRun(run, actions) && j < |actions|
  {
    actions[j].ClaimTail? && run[j].tail == p && actions[j].t in run[j].calls &&
    run[j].calls[actions[j].t].EnqSeen? && run[j].calls[actions[j].t].data == v
  }

  lemma {:induction false} Claimant(run: seq<State>, actions: seq<Action>, i: nat, p: nat) returns (j: nat)
    requires IsRun(run, actions) && i < |run| && p < |run[i].items|
    ensures j < i && ClaimStep(run, actions, j, p, run[i].items[p])
  {
    RunInv(run, actions, i);
    if i > 0 {
      RunInv(run, actions, i - 1);
      var s, a := run[i - 1], actions[i - 1];
      assert run[i - 1 + 1] == Next(s, a) && Enabled(s, a);
      hide Inv;
      hide Set;
      hide At;
      assert |s.items| == s.tail by { InvCall(s, a.t); }
      if p < |s.items| {
        j := Claimant(run, actions, i - 1, p);
      } else {
        j := i - 1;
      }
    }
  }

  /** Items, once in, stay as they are; a ticket that was given back stays given back. */
  lemma {:induction false} TicketsStay(run: seq<State>, actions: seq<Action>, i: nat, j: nat, p: nat)
    requires IsRun(run, actions) && i <= j < |run|
    ensures run[i].head <= run[j].head && run[i].tail <= run[j].tail
    ensures p < |run[i].status| ==>
      p < |run[j].status| && (run[i].status[p] == Released ==> run[j].status[p] == Released)
    decreases j
  {
    hide Next;
    hide Enabled;
    hide Inv;
    if i < j {
      TicketsStay(run, actions, i, j - 1, p);
      RunInv(run, actions, j - 1);
      assert run[j - 1 + 1] == Next(run[j - 1], actions[j - 1]) && Enabled(run[j - 1], actions[j - 1]);
      StepTickets(run[j - 1], actions[j - 1], p);
    }
  }

  lemma StepTickets(s: State, a: Action, p: nat)
    requires Inv(s) && Enabled(s, a)
    ensures s.head <= Next(s, a).head && s.tail <= Next(s, a).tail
    ensures p < |s.status| ==> p < |Next(s, a).status| && (s.status[p] == Released ==> Next(s, a).status[p] == Released)
  {
    hide Slot;
    hide At;
    hide Set;
    InvCall(s, a.t);
    assert s.head < s.tail ==> TicketOk(s, s.head);
  }

  /** Every value that comes out went in under the same ticket, and no other dequeue returns that ticket. */
  lemma Delivered(run: seq<State>, actions: seq<Action>, i: nat) returns (j: nat)
    requires IsRun(run, actions) && i < |actions| && actions[i].Release?
    ensures Enabled(run[i], actions[i])
    ensures var c := run[i].calls[actions[i].t]; j < i && ClaimStep(run, actions, j, c.pos, c.value)
    ensures forall k {:trigger run[k]} :: i < k < |actions| && actions[k].Release? ==>
      Enabled(run[k], actions[k]) && run[k].calls[actions[k].t].pos != run[i].calls[actions[i].t].pos
  {
    RunInv(run, actions, i);
    assert Enabled(run[i], actions[i]) && run[i + 1] == Next(run[i], actions[i]);
    var c := run[i].calls[actions[i].t];
    assert CallOk(run[i], actions[i].t) && TicketOk(run[i], c.pos);
    j := Claimant(run, actions, i, c.pos);
    forall k {:trigger run[k]} | i < k < |actions| && actions[k].Release?
      ensures Enabled(run[k], actions[k]) && run[k].calls[actions[k].t].pos != c.pos
    {
      RunInv(run, actions, k);
      TicketsStay(run, actions, i + 1, k, c.pos);
      assert Enabled(run[k], actions[k]) && CallOk(run[k], actions[k].t);
    }
  }

  /** A producer writes into a cell only after the consumer of the ticket one turn before has given it back. */
  lemma WritesAfterRelease(run: seq<State>, actions: seq<Action>, i: nat)
    requires IsRun(run, actions) && i < |actions| && actions[i].WriteData?
    ensures Enabled(run[i], actions[i])
    ensures var s, p := run[i], run[i].calls[actions[i].t].pos;
      && p < |s.status| && s.status[p] == Claimed(actions[i].t)
      && (p >= |s.cells| ==> s.status[p - |s.cells|] == Released)
  {
    hide Slot;
    hide At;
    hide Next;
    RunInv(run, actions, i);
    var s := run[i];
    assert Enabled(s, actions[i]) && CallOk(s, actions[i].t);
    var p := s.calls[actions[i].t].pos;
    assert p >= |s.cells| ==> TicketOk(s, p - |s.cells|);
  }

  /** First in, first out: tickets are taken in the order in which they were claimed. */
  lemma TakenInOrder(run: seq<State>, actions: seq<Action>, i: nat, j: nat)
    requires IsRun(run, actions) && i < j < |actions| && actions[i].ClaimHead? && actions[j].ClaimHead?
    ensures Enabled(run[i], actions[i]) && Enabled(run[j], actions[j])
    ensures run[i].calls[actions[i].t].pos < run[j].calls[actions[j].t].pos
    ensures run[j].calls[actions[j].t].pos == run[j].head < run[j].tail <= run[j].head + |run[j].cells|
  {
    assert Enabled(run[i], actions[i]) && run[i + 1] == Next(run[i], actions[i]);
    assert Enabled(run[j], actions[j]);
    TicketsStay(run, actions, i + 1, j, 0);
    RunInv(run, actions, j);
    InvCall(run[j], actions[j].t);
  }

  /** The extra conditions on tickets in `Enabled` always hold, so they never hold up a step. */
  lemma TicketsKnown(s: State, t: Tid)
    requires Inv(s) && t in s.calls
    ensures s.calls[t].DeqSeen? && s.head == s.calls[t].pos ==> Enabled(s, ClaimHead(t))
    ensures s.calls[t].EnqWrote? ==> Enabled(s, Publish(t))
    ensures s.calls[t].DeqRead? ==> Enabled(s, Release(t))
  {
    hide Slot;
    assert CallOk(s, t);
  }
}
