/**
 The work-stealing deque of the thread pool. Its owner pushes and pops at the bottom, any number of thieves take from
 the top. Function and argument of a task are separate words, read and written one at a time.

 `pushed`, `number` and `taken` are not in the program: every push has a number, `number` says which push an index
 of the deque holds, and `taken` which pushes were handed out.
 */
module WorkStealing {
  import opened Basics
  import opened Ring

  type Tid = nat

  datatype Task = Task(fn: nat, arg: nat)

  datatype Owner =
    | Ready
    | PushFn(b: nat, task: Task)
    | PushArg(b: nat, task: Task)
    | PushEnd(b: nat, task: Task)
    | PopTop(b: nat)
    | PopFn(b: nat, t: nat)
    | PopArg(b: nat, t: nat, fn: nat)
    | PopEnd(b: nat, t: nat, task: Task)
    | Restore(bottom: nat)

  datatype Thief =
    | StealBottom(t: nat)
    | StealFn(t: nat)
    | StealArg(t: nat, fn: nat)
    | StealEnd(t: nat, task: Task)

  datatype State = State(
    slots: seq<Task>,
    top: nat,
    bottom: nat,
    owner: Owner,
    thieves: map<Tid, Thief>,
    pushed: seq<Task>,
    number: map<nat, nat>,
    taken: set<nat>)

  datatype Action =
    | Push(task: Task)
    | StoreWord
    | Pop
    | LoadTop
    | LoadWord
    | Finish
    | StoreBottom
    | Steal(t: Tid)
    | ThiefBottom(t: Tid)
    | ThiefWord(t: Tid)
    | ThiefCas(t: Tid)
    | GiveUp(t: Tid)

  predicate Init(s: State) {
    && |s.slots| >= 2 && s.top == 0 && s.bottom == 0 && s.owner == Ready && s.thieves == map[]
    && s.pushed == [] && s.number == map[] && s.taken == {}
  }

  function At(slots: seq<Task>, k: nat): Task
    requires |slots| > 0
  {
    slots[Slot(k, |slots|)]
  }

  function Put(slots: seq<Task>, k: nat, task: Task): (r: seq<Task>)
    requires |slots| > 0
    ensures |r| == |slots|
  {
    slots[Slot(k, |slots|) := task]
  }

  /** The pop gets its task: there were others left, or no thief was faster. */
  predicate Wins(s: State)
    requires s.owner.PopEnd?
  {
    s.owner.t < s.owner.b || s.top == s.owner.t
  }

  predicate Enabled(s: State, a: Action) {
    |s.slots| > 0 &&
    match a
    case Push(_) => s.owner.Ready?
    case StoreWord => s.owner.PushFn? || s.owner.PushArg? || s.owner.PushEnd?
    case Pop => s.owner.Ready? && s.bottom > 0
    case LoadTop => s.owner.PopTop?
    case LoadWord => s.owner.PopFn? || s.owner.PopArg?
    case Finish => s.owner.PopEnd? && (Wins(s) ==> s.owner.b in s.number)
    case StoreBottom => s.owner.Restore?
    case Steal(t) => t !in s.thieves
    case ThiefBottom(t) => t in s.thieves && s.thieves[t].StealBottom?
    case ThiefWord(t) => t in s.thieves && (s.thieves[t].StealFn? || s.thieves[t].StealArg?)
    case ThiefCas(t) =>
      t in s.thieves && s.thieves[t].StealEnd? && s.top == s.thieves[t].t && s.top in s.number
    case GiveUp(t) => t in s.thieves && s.thieves[t].StealEnd?
  }

  function StoredWord(s: State): State
    requires |s.slots| > 0 && (s.owner.PushFn? || s.owner.PushArg? || s.owner.PushEnd?)
  {
    match s.owner
    case PushFn(b, task) =>
      s.(slots := Put(s.slots, b, At(s.slots, b).(fn := task.fn)), owner := PushArg(b, task))
    case PushArg(b, task) =>
      s.(slots := Put(s.slots, b, At(s.slots, b).(arg := task.arg)), owner := PushEnd(b, task))
    case PushEnd(b, task) =>
      s.(bottom := b + 1, owner := Ready, pushed := s.pushed + [task], number := s.number[b := |s.pushed|])
  }

  /** The last step of a pop: with more than one task left it is over, otherwise thieves may have been faster. */
  function Finished(s: State): State
    requires s.owner.PopEnd? && (Wins(s) ==> s.owner.b in s.number)
  {
    if s.owner.t < s.owner.b then s.(owner := Ready, taken := s.taken + {s.number[s.owner.b]})
    else if s.top == s.owner.t then
      s.(top := s.top + 1, owner := Restore(s.owner.b + 1), taken := s.taken + {s.number[s.owner.b]})
    else s.(owner := Restore(s.owner.b + 1))
  }

  function Next(s: State, a: Action): State
    requires Enabled(s, a)
  {
    match a
    case Push(task) => if s.bottom - s.top >= |s.slots| then s else s.(owner := PushFn(s.bottom, task))
    case StoreWord => StoredWord(s)
    case Pop => s.(bottom := s.bottom - 1, owner := PopTop(s.bottom - 1))
    case LoadTop => s.(owner := if s.top <= s.owner.b then PopFn(s.owner.b, s.top) else Restore(s.top))
    case LoadWord =>
      s.(owner := if s.owner.PopFn? then PopArg(s.owner.b, s.owner.t, At(s.slots, s.owner.b).fn)
                  else PopEnd(s.owner.b, s.owner.t, Task(s.owner.fn, At(s.slots, s.owner.b).arg)))
    case Finish => Finished(s)
    case StoreBottom => s.(bottom := s.owner.bottom, owner := Ready)
    case Steal(t) => s.(thieves := s.thieves[t := StealBottom(s.top)])
    case ThiefBottom(t) =>
      s.(thieves := if s.thieves[t].t < s.bottom then s.thieves[t := StealFn(s.thieves[t].t)] else s.thieves - {t})
    case ThiefWord(t) =>
      var c := s.thieves[t];
      s.(thieves := s.thieves[t := if c.StealFn? then StealArg(c.t, At(s.slots, c.t).fn)
                                   else StealEnd(c.t, Task(c.fn, At(s.slots, c.t).arg))])
    case ThiefCas(t) => s.(top := s.top + 1, thieves := s.thieves - {t}, taken := s.taken + {s.number[s.top]})
    case GiveUp(t) => s.(thieves := s.thieves - {t})
  }

  /** The task a step hands out, with the number of its push. */
  function HandsOut(s: State, a: Action): Option<(Task, nat)>
    requires Enabled(s, a)
  {
    match a
    case Finish =>
      if Wins(s) then Some((s.owner.task, s.number[s.owner.b])) else None
    case ThiefCas(t) => Some((s.thieves[t].task, s.number[s.top]))
    case _ => None
  }

  // ---------- invariant ----------

  /** The index behind the last task, counting one the owner is about to pop. */
  function Limit(s: State): nat {
    match s.owner
    case PopTop(b) => b + 1
    case PopFn(b, _) => b + 1
    case PopArg(b, _, _) => b + 1
    case PopEnd(b, _, _) => b + 1
    case Restore(bottom) => bottom
    case _ => s.bottom
  }

  /** The index behind the last task a thief can still take. */
  function StealLimit(s: State): nat {
    match s.owner
    case PopFn(b, t) => if t < b then b else b + 1
    case PopArg(b, t, _) => if t < b then b else b + 1
    case PopEnd(b, t, _) => if t < b then b else b + 1
    case _ => Limit(s)
  }

  predicate OwnerOk(s: State)
    requires |s.slots| > 0
  {
    match s.owner
    case Ready => true
    case PushFn(b, _) => b == s.bottom < s.top + |s.slots|
    case PushArg(b, task) => b == s.bottom < s.top + |s.slots| && At(s.slots, b).fn == task.fn
    case PushEnd(b, task) => b == s.bottom < s.top + |s.slots| && At(s.slots, b) == task
    case PopTop(b) => b == s.bottom
    case PopFn(b, t) => b == s.bottom && t <= s.top && t <= b
    case PopArg(b, t, fn) => b == s.bottom && t <= s.top && t <= b && fn == At(s.slots, b).fn
    case PopEnd(b, t, task) => b == s.bottom && t <= s.top && t <= b && task == At(s.slots, b)
    case Restore(bottom) => bottom == s.top && s.bottom < s.top
  }

  predicate ThiefOk(s: State, c: Thief)
    requires |s.slots| > 0
  {
    match c
    case StealBottom(t) => t <= s.top
    case StealFn(t) => t <= s.top && (t == s.top ==> t < StealLimit(s))
    case StealArg(t, fn) => t <= s.top && (t == s.top ==> t < StealLimit(s) && fn == At(s.slots, t).fn)
    case StealEnd(t, task) => t <= s.top && (t == s.top ==> t < StealLimit(s) && task == At(s.slots, t))
  }

  predicate Live(s: State, k: nat) {
    s.top <= k < Limit(s)
  }

  /** Every index in use holds a push that was not handed out. */
  ghost predicate SlotsOk(s: State)
    requires |s.slots| > 0
  {
    forall k :: Live(s, k) ==>
      k in s.number && s.number[k] < |s.pushed| && s.number[k] !in s.taken && At(s.slots, k) == s.pushed[s.number[k]]
  }

  /** Pushes lie in the deque in the order in which they were made. */
  ghost predicate Ascending(s: State) {
    forall j, k :: Live(s, j) && Live(s, k) && j < k && j in s.number && k in s.number ==> s.number[j] < s.number[k]
  }

  /** Every push was handed out or is still there. */
  ghost predicate Conserved(s: State) {
    && (forall n :: n in s.taken ==> n < |s.pushed|)
    && (forall n :: 0 <= n < |s.pushed| && n !in s.taken ==>
          exists k :: Live(s, k) && k in s.number && s.number[k] == n)
  }

  ghost predicate Inv(s: State) {
    && |s.slots| >= 2 && s.top <= StealLimit(s) && Limit(s) <= s.top + |s.slots|
    && OwnerOk(s) && SlotsOk(s) && Ascending(s) && Conserved(s)
    && forall t :: t in s.thieves ==> ThiefOk(s, s.thieves[t])
  }

  lemma PutOther(slots: seq<Task>, b: nat, k: nat, task: Task)
    requires |slots| > 0 && k < b < k + |slots|
    ensures At(Put(slots, b, task), k) == At(slots, k)
  {
    hide Slot;
    SlotDistinct(k, b, |slots|);
  }

  lemma PutSame(slots: seq<Task>, b: nat, task: Task)
    requires |slots| > 0
    ensures At(Put(slots, b, task), b) == task
  {
  }

  /** Steps that change neither the range in use nor what is in it. */
  lemma Quiet(s: State, s': State)
    requires Inv(s) && s'.slots == s.slots && s'.top == s.top && s'.pushed == s.pushed
    requires s'.number == s.number && s'.taken == s.taken
    requires Limit(s') == Limit(s) && s.top <= StealLimit(s')
    requires OwnerOk(s') && forall t :: t in s'.thieves ==> ThiefOk(s', s'.thieves[t])
    ensures Inv(s')
  {
    hide OwnerOk;
    hide ThiefOk;
    hide Limit;
    hide StealLimit;
    hide At;
    assert forall k :: Live(s', k) <==> Live(s, k);
  }

  /** What the owner writes is outside the range in use. */
  lemma StoredWhere(s: State)
    requires Inv(s) && (s.owner.PushFn? || s.owner.PushArg?)
    ensures forall k :: Live(s, k) ==> At(StoredWord(s).slots, k) == At(s.slots, k)
    ensures At(StoredWord(s).slots, s.owner.b) ==
      if s.owner.PushFn? then At(s.slots, s.owner.b).(fn := s.owner.task.fn)
      else At(s.slots, s.owner.b).(arg := s.owner.task.arg)
  {
    hide Slot;
    hide Put;
    hide At;
    var b := s.owner.b;
    var e := if s.owner.PushFn? then At(s.slots, b).(fn := s.owner.task.fn)
             else At(s.slots, b).(arg := s.owner.task.arg);
    PutSame(s.slots, b, e);
    forall k | Live(s, k)
      ensures At(StoredWord(s).slots, k) == At(s.slots, k)
    {
      PutOther(s.slots, b, k, e);
    }
  }

  lemma StoreWordInv(s: State)
    requires Inv(s) && (s.owner.PushFn? || s.owner.PushArg?)
    ensures Inv(StoredWord(s))
  {
    hide Slot;
    hide Put;
    hide At;
    var s' := StoredWord(s);
    StoredWhere(s);
    assert forall k :: Live(s', k) <==> Live(s, k);
    assert OwnerOk(s') && SlotsOk(s') && Ascending(s');
    assert Conserved(s') by { SameLive(s, s'); }
    forall t | t in s'.thieves
      ensures ThiefOk(s', s'.thieves[t])
    {
      assert ThiefOk(s, s.thieves[t]);
      assert s.thieves[t].t == s.top && !s.thieves[t].StealBottom? ==> Live(s, s.top);
    }
  }

  lemma SameLive(s: State, s': State)
    requires Conserved(s) && s'.pushed == s.pushed && s'.number == s.number && s'.taken == s.taken
    requires forall k :: Live(s', k) <==> Live(s, k)
    ensures Conserved(s')
  {
    hide Limit;
    forall n | 0 <= n < |s'.pushed| && n !in s'.taken
      ensures exists k :: Live(s', k) && k in s'.number && s'.number[k] == n
    {
      var k :| Live(s, k) && k in s.number && s.number[k] == n;
      assert Live(s', k);
    }
  }

  /** A push is complete: the range grows by the new task. */
  lemma PushEndInv(s: State)
    requires Inv(s) && s.owner.PushEnd?
    ensures Inv(StoredWord(s))
  {
    hide Slot;
    hide At;
    var s', b := StoredWord(s), s.owner.b;
    assert forall k :: Live(s', k) <==> Live(s, k) || k == b;
    assert !Live(s, b);
    assert SlotsOk(s') && Ascending(s');
    forall n | 0 <= n < |s'.pushed| && n !in s'.taken
      ensures exists k :: Live(s', k) && k in s'.number && s'.number[k] == n
    {
      if n < |s.pushed| {
        var k :| Live(s, k) && k in s.number && s.number[k] == n;
        assert Live(s', k) && s'.number[k] == n;
      } else {
        assert Live(s', b) && s'.number[b] == n;
      }
    }
    forall t | t in s'.thieves
      ensures ThiefOk(s', s'.thieves[t])
    {
      assert ThiefOk(s, s.thieves[t]);
    }
  }

  /** The task at index k, the first or the last in use, is handed out. */
  predicate HandedOut(s: State, s': State, k: nat) {
    && s'.slots == s.slots && s'.pushed == s.pushed && s'.number == s.number
    && Live(s, k) && k in s.number && s'.taken == s.taken + {s.number[k]}
    && (s'.top == s.top || (k == s.top && s'.top == s.top + 1))
    && (Limit(s') == Limit(s) || (k == Limit(s) - 1 && Limit(s') == k))
    && (s'.top != s.top <==> Limit(s') == Limit(s))
  }

  lemma HandOutInv(s: State, s': State, k: nat)
    requires Inv(s) && HandedOut(s, s', k)
    ensures SlotsOk(s') && Ascending(s') && Conserved(s') && s'.top <= Limit(s') <= s'.top + |s'.slots|
  {
    hide Slot;
    hide At;
    hide Limit;
    hide StealLimit;
    hide OwnerOk;
    hide ThiefOk;
    assert forall j :: Live(s', j) <==> Live(s, j) && j != k;
    forall n | 0 <= n < |s'.pushed| && n !in s'.taken
      ensures exists j :: Live(s', j) && j in s'.number && s'.number[j] == n
    {
      var j :| Live(s, j) && j in s.number && s.number[j] == n;
      assert Live(s', j);
    }
    forall j: nat | Live(s', j)
      ensures s'.number[j] !in s'.taken
    {
      assert j < k || k < j;
    }
  }

  lemma StealInv(s: State, t: Tid)
    requires Inv(s) && Enabled(s, ThiefCas(t))
    ensures Inv(Next(s, ThiefCas(t)))
  {
    hide Slot;
    hide At;
    hide SlotsOk;
    hide Ascending;
    hide Conserved;
    var s' := Next(s, ThiefCas(t));
    assert ThiefOk(s, s.thieves[t]);
    assert StealLimit(s) <= Limit(s);
    HandOutInv(s, s', s.top);
    forall x | x in s'.thieves
      ensures ThiefOk(s', s'.thieves[x])
    {
      assert ThiefOk(s, s.thieves[x]);
    }
  }

  lemma FinishInv(s: State)
    requires Inv(s) && Enabled(s, Finish)
    ensures Inv(Next(s, Finish))
  {
    hide Slot;
    hide At;
    hide SlotsOk;
    hide Ascending;
    hide Conserved;
    var s', b := Next(s, Finish), s.owner.b;
    if Wins(s) {
      HandOutInv(s, s', b);
    } else {
      Quiet(s, s');
    }
    forall x | x in s'.thieves
      ensures ThiefOk(s', s'.thieves[x])
    {
      assert ThiefOk(s, s.thieves[x]);
    }
  }

  lemma OwnerQuiet(s: State, a: Action)
    requires Inv(s) && Enabled(s, a) && (a.Push? || a.Pop? || a.LoadTop? || a.LoadWord? || a.StoreBottom?)
    ensures Inv(Next(s, a))
  {
    hide Slot;
    hide At;
    hide SlotsOk;
    hide Ascending;
    hide Conserved;
    var s' := Next(s, a);
    forall x | x in s'.thieves
      ensures ThiefOk(s', s'.thieves[x])
    {
      assert ThiefOk(s, s.thieves[x]);
    }
    Quiet(s, s');
  }

  lemma ThiefQuiet(s: State, a: Action)
    requires Inv(s) && Enabled(s, a) && (a.Steal? || a.ThiefBottom? || a.ThiefWord? || a.GiveUp?)
    ensures Inv(Next(s, a))
  {
    hide Slot;
    hide At;
    hide SlotsOk;
    hide Ascending;
    hide Conserved;
    var s' := Next(s, a);
    assert s.bottom <= StealLimit(s) || s.bottom <= s.top;
    forall x | x in s'.thieves
      ensures ThiefOk(s', s'.thieves[x])
    {
      if x in s.thieves {
        assert ThiefOk(s, s.thieves[x]);
      }
    }
    Quiet(s, s');
  }

  lemma StepInv(s: State, a: Action)
    requires Inv(s) && Enabled(s, a)
    ensures Inv(Next(s, a))
  {
    hide Inv;
    match a
    case StoreWord => if s.owner.PushEnd? { PushEndInv(s); } else { StoreWordInv(s); }
    case Finish => FinishInv(s);
    case ThiefCas(t) => StealInv(s, t);
    case Push(_) => OwnerQuiet(s, a);
    case Pop => OwnerQuiet(s, a);
    case LoadTop => OwnerQuiet(s, a);
    case LoadWord => OwnerQuiet(s, a);
    case StoreBottom => OwnerQuiet(s, a);
    case _ => ThiefQuiet(s, a);
  }

  // ---------- what is handed out ----------

  /** A task is handed out whole, and only once: the step that returns it takes a push that nobody had taken. */
  lemma HandedOutOnce(s: State, a: Action)
    requires Inv(s) && Enabled(s, a) && HandsOut(s, a).Some?
    ensures var (task, n) := HandsOut(s, a).value;
      n < |s.pushed| && task == s.pushed[n] && n !in s.taken && Next(s, a).taken == s.taken + {n}
  {
    hide Slot;
    hide At;
    if a.ThiefCas? {
      assert ThiefOk(s, s.thieves[a.t]);
    }
    assert Live(s, if a.ThiefCas? then s.top else s.owner.b);
  }

  /** Thieves take the oldest push in the deque, the owner the newest. */
  lemma HandedOutEnd(s: State, a: Action, k: nat)
    requires Inv(s) && Enabled(s, a) && HandsOut(s, a).Some? && Live(s, k) && k in s.number
    ensures if a.ThiefCas? then HandsOut(s, a).value.1 <= s.number[k] else s.number[k] <= HandsOut(s, a).value.1
  {
    hide Slot;
    hide At;
    hide Conserved;
    if a.ThiefCas? {
      assert ThiefOk(s, s.thieves[a.t]);
    }
    assert Live(s, if a.ThiefCas? then s.top else s.owner.b);
  }

  // ---------- runs ----------

  ghost predicate IsRun(run: seq<State>, actions: seq<Action>) {
    && |run| == |actions| + 1 && Init(run[0])
    && forall i :: 0 <= i < |actions| ==> Enabled(run[i], actions[i]) && run[i + 1] == Next(run[i], actions[i])
  }

  lemma {:induction false} RunInv(run: seq<State>, actions: seq<Action>, i: nat)
    requires IsRun(run, actions) && i < |run|
    ensures Inv(run[i])
  {
    hide Next;
    hide Enabled;
    if i > 0 {
      RunInv(run, actions, i - 1);
      hide Inv;
      assert run[i - 1 + 1] == Next(run[i - 1], actions[i - 1]);
      StepInv(run[i - 1], actions[i - 1]);
    }
  }

  lemma {:induction false} TakenStays(run: seq<State>, actions: seq<Action>, i: nat, j: nat)
    requires IsRun(run, actions) && i <= j < |run|
    ensures run[i].taken <= run[j].taken && run[i].pushed <= run[j].pushed
    decreases j
  {
    if i < j {
      TakenStays(run, actions, i, j - 1);
      assert run[j - 1 + 1] == Next(run[j - 1], actions[j - 1]) && Enabled(run[j - 1], actions[j - 1]);
    }
  }

  /** In a whole run no push is handed out twice. */
  lemma NoTaskTwice(run: seq<State>, actions: seq<Action>, i: nat, j: nat)
    requires IsRun(run, actions) && i < j < |actions|
    requires Enabled(run[i], actions[i]) && HandsOut(run[i], actions[i]).Some?
    requires Enabled(run[j], actions[j]) && HandsOut(run[j], actions[j]).Some?
    ensures HandsOut(run[i], actions[i]).value.1 != HandsOut(run[j], actions[j]).value.1
    ensures
      var (task, n) := HandsOut(run[j], actions[j]).value;
      n < |run[j].pushed| && task == run[j].pushed[n]
  {
    hide Inv;
    hide HandsOut;
    hide Enabled;
    RunInv(run, actions, i);
    RunInv(run, actions, j);
    HandedOutOnce(run[i], actions[i]);
    HandedOutOnce(run[j], actions[j]);
    assert run[i + 1] == Next(run[i], actions[i]);
    TakenStays(run, actions, i + 1, j);
  }

  /** Step j of the run hands out this task, which is push number n. */
  ghost predicate Returned(run: seq<State>, actions: seq<Action>, j: nat, task: Task, n: nat)
    requires |run| == |actions| + 1
  {
    j < |actions| && Enabled(run[j], actions[j]) && HandsOut(run[j], actions[j]) == Some((task, n))
  }

  /** Push number n lies in the deque, where a pop or a steal can still take it. */
  ghost predicate InDeque(s: State, n: nat) {
    |s.slots| > 0 && n < |s.pushed| &&
    exists k :: Live(s, k) && k in s.number && s.number[k] == n && At(s.slots, k) == s.pushed[n]
  }

  lemma TakenByStep(s: State, a: Action)
    requires Enabled(s, a)
    ensures Next(s, a).taken == match HandsOut(s, a) case None => s.taken case Some(out) => s.taken + {out.1}
  {
  }

  /** What is taken was returned by an earlier step. */
  lemma {:induction false} TakenReturned(run: seq<State>, actions: seq<Action>, i: nat, n: nat) returns (j: nat)
    requires IsRun(run, actions) && i < |run| && n in run[i].taken
    ensures n < |run[i].pushed| && j < i && Returned(run, actions, j, run[i].pushed[n], n)
    decreases i
  {
    hide Inv;
    hide Enabled;
    hide HandsOut;
    hide Next;
    assert i > 0;
    var s, a := run[i - 1], actions[i - 1];
    assert Enabled(s, a) && run[i - 1 + 1] == Next(s, a);
    TakenByStep(s, a);
    TakenStays(run, actions, i - 1, i);
    if n in s.taken {
      j := TakenReturned(run, actions, i - 1, n);
    } else {
      j := i - 1;
      RunInv(run, actions, j);
      HandedOutOnce(s, a);
    }
  }

  /** What a step returned is taken from then on, and is the task that was pushed. */
  lemma ReturnedTaken(run: seq<State>, actions: seq<Action>, i: nat, j: nat, task: Task, n: nat)
    requires IsRun(run, actions) && j < i < |run| && Returned(run, actions, j, task, n)
    ensures n in run[i].taken && n < |run[i].pushed| && task == run[i].pushed[n]
  {
    hide Inv;
    hide Enabled;
    hide HandsOut;
    hide Next;
    RunInv(run, actions, j);
    HandedOutOnce(run[j], actions[j]);
    assert run[j + 1] == Next(run[j], actions[j]);
    TakenStays(run, actions, j, i);
    TakenStays(run, actions, j + 1, i);
  }

  /**
   No task is lost and none is doubled: at every moment of a run each push was returned by exactly one step, or
   it lies in the deque, and never both.
   */
  lemma NoTaskLost(run: seq<State>, actions: seq<Action>, i: nat, n: nat)
    requires IsRun(run, actions) && i < |run| && n < |run[i].pushed|
    ensures (exists j :: 0 <= j < i && Returned(run, actions, j, run[i].pushed[n], n)) <==> !InDeque(run[i], n)
    ensures forall j, j' :: 0 <= j < j' < i && Returned(run, actions, j, run[i].pushed[n], n) ==>
      !Returned(run, actions, j', run[i].pushed[n], n)
  {
    hide Enabled;
    hide HandsOut;
    hide Next;
    hide At;
    hide Limit;
    hide StealLimit;
    var s := run[i];
    RunInv(run, actions, i);
    assert n in s.taken <==> !InDeque(s, n);
    if n in s.taken {
      var j := TakenReturned(run, actions, i, n);
    }
    forall j | 0 <= j < i && Returned(run, actions, j, s.pushed[n], n)
      ensures n in s.taken
    {
      ReturnedTaken(run, actions, i, j, s.pushed[n], n);
    }
    forall j, j' | 0 <= j < j' < i && Returned(run, actions, j, s.pushed[n], n)
      ensures !Returned(run, actions, j', s.pushed[n], n)
    {
      if Returned(run, actions, j', s.pushed[n], n) {
        NoTaskTwice(run, actions, j, j');
      }
    }
  }

  /** When the owner is between calls and the deque is empty, every push has been returned. */
  lemma EmptyMeansReturned(run: seq<State>, actions: seq<Action>, i: nat, n: nat) returns (j: nat)
    requires IsRun(run, actions) && i < |run| && run[i].owner == Ready && run[i].top == run[i].bottom
    requires n < |run[i].pushed|
    ensures j < i && Returned(run, actions, j, run[i].pushed[n], n)
  {
    hide Enabled;
    hide HandsOut;
    hide Next;
    NoTaskLost(run, actions, i, n);
    assert !InDeque(run[i], n);
    j :| 0 <= j < i && Returned(run, actions, j, run[i].pushed[n], n);
  }

  /** The numbers a winning step needs are always there, so asking for them never holds up a step. */
  lemma NumbersKnown(s: State, t: Tid)
    requires Inv(s)
    ensures s.owner.PopEnd? ==> Enabled(s, Finish)
    ensures t in s.thieves && s.thieves[t].StealEnd? && s.thieves[t].t == s.top ==> Enabled(s, ThiefCas(t))
  {
    hide Slot;
    hide At;
    if s.owner.PopEnd? && Wins(s) {
      assert Live(s, s.owner.b);
    }
    if t in s.thieves && s.thieves[t].StealEnd? && s.thieves[t].t == s.top {
      assert ThiefOk(s, s.thieves[t]);
      assert Live(s, s.top);
    }
  }

  /** A pop that finds the deque empty, or loses its last task to a thief, puts bottom back to where it was. */
  lemma FailedPopRestores(s: State, a: Action)
    requires Inv(s) && Enabled(s, a)
    requires (a.LoadTop? && s.top > s.owner.b) || (a.Finish? && !Wins(s))
    ensures Next(s, a).owner == Restore(s.bottom + 1) && s.owner.b == s.bottom
    ensures Next(Next(s, a), StoreBottom) == Next(s, a).(bottom := s.bottom + 1, owner := Ready)
  {
    hide Slot;
    hide At;
  }
}
