/**
 Running a compiled task graph on a pool of threads. A node is submitted when the last of its predecessors tells it so;
 any number of submitted nodes run at once, in any interleaving of the steps below.
 */
module TaskRun {
  import opened TaskGraph

  datatype Status = Waiting | Submitted | Running | Telling(next: nat) | Done

  datatype Plan = Plan(succ: Edges, roots: seq<nat>)

  /** `sent` roots have been submitted; `pending` is the counter of the wait group. */
  datatype State = State(status: seq<Status>, remaining: seq<nat>, sent: nat, pending: int)

  datatype Action = SubmitRoot | Start(v: nat) | Finish(v: nat) | Tell(v: nat) | Complete(v: nat)

  ghost predicate Compiled(g: Plan) {
    && InGraph(g.succ) && Acyclic(g.succ) && RootsOf(g.succ, g.roots)
    && forall u :: 0 <= u < |g.succ| ==> Distinct(g.succ[u])
  }

  ghost predicate Init(g: Plan, s: State) {
    && |s.status| == |g.succ| == |s.remaining| && s.sent == 0 && s.pending == |g.succ|
    && (forall v :: 0 <= v < |g.succ| ==> s.status[v] == Waiting && s.remaining[v] == Degree(g.succ, v))
  }

  predicate Enabled(g: Plan, s: State, a: Action) {
    |s.status| == |g.succ| == |s.remaining| &&
    match a
    case SubmitRoot => s.sent < |g.roots| && g.roots[s.sent] < |g.succ|
    case Start(v) => v < |g.succ| && s.status[v] == Submitted
    case Finish(v) => v < |g.succ| && s.status[v] == Running
    case Tell(v) =>
      && v < |g.succ| && s.status[v].Telling? && s.status[v].next < |g.succ[v]|
      && g.succ[v][s.status[v].next] < |g.succ| && s.remaining[g.succ[v][s.status[v].next]] > 0
    case Complete(v) => v < |g.succ| && s.status[v].Telling? && s.status[v].next >= |g.succ[v]|
  }

  function Next(g: Plan, s: State, a: Action): State
    requires Enabled(g, s, a)
  {
    match a
    case SubmitRoot => s.(status := s.status[g.roots[s.sent] := Submitted], sent := s.sent + 1)
    case Start(v) => s.(status := s.status[v := Running])
    case Finish(v) => s.(status := s.status[v := Telling(0)])
    case Tell(v) =>
      var i := s.status[v].next;
      var w := g.succ[v][i];
      var told := s.status[v := Telling(i + 1)];
      s.(status := if s.remaining[w] == 1 then told[w := Submitted] else told,
         remaining := s.remaining[w := s.remaining[w] - 1])
    case Complete(v) => s.(status := s.status[v := Done], pending := s.pending - 1)
  }

  // ---------- invariant ----------

  predicate Told(st: Status, out: seq<nat>, v: nat) {
    st.Done? || (st.Telling? && v in out[..if st.next <= |out| then st.next else |out|])
  }

  /** Predecessor u has yet to tell v. */
  function Owes(g: Plan, status: seq<Status>, v: nat): nat -> bool
    requires |status| == |g.succ|
  {
    (u: nat) => Edge(g.succ, u, v) && !Told(status[u], g.succ[u], v)
  }

  function NotDone(status: seq<Status>): nat -> bool {
    (u: nat) => u < |status| && !status[u].Done?
  }

  /** Nothing holds v back: all its predecessors have told it, and if it is a root it was submitted. */
  predicate Released(g: Plan, s: State, v: nat)
    requires |s.status| == |g.succ| == |s.remaining| && v < |g.succ|
  {
    s.remaining[v] == 0 && (v in g.roots ==> v in g.roots[..if s.sent <= |g.roots| then s.sent else |g.roots|])
  }

  predicate Sized(g: Plan, s: State) {
    |s.status| == |g.succ| == |s.remaining| && s.sent <= |g.roots|
  }

  ghost predicate Inv(g: Plan, s: State) {
    && Sized(g, s)
    && (forall v :: 0 <= v < |g.succ| ==> s.remaining[v] == Count(|g.succ|, Owes(g, s.status, v)))
    && (forall v :: 0 <= v < |g.succ| ==> (s.status[v] != Waiting <==> Released(g, s, v)))
    && s.pending == Count(|g.succ|, NotDone(s.status))
  }

  lemma InitInv(g: Plan, s: State)
    requires Compiled(g) && Init(g, s)
    ensures Inv(g, s)
  {
    hide Acyclic;
    forall v | 0 <= v < |g.succ|
      ensures s.remaining[v] == Count(|g.succ|, Owes(g, s.status, v)) && !Released(g, s, v)
    {
      CountSame(|g.succ|, Waiter(g.succ, {}, 0, [], v), Owes(g, s.status, v));
      assert s.remaining[v] == 0 ==> v in g.roots;
    }
    AllCount(|g.succ|, NotDone(s.status));
  }

  lemma {:induction false} AllCount(n: nat, f: nat -> bool)
    requires forall u :: 0 <= u < n ==> f(u)
    ensures Count(n, f) == n
  {
    if n > 0 {
      AllCount(n - 1, f);
    }
  }

  /** A node that others lead to is not a root. */
  lemma NotRoot(g: Plan, u: nat, v: nat)
    requires Compiled(g) && Edge(g.succ, u, v)
    ensures v !in g.roots
  {
    hide Acyclic;
    hide Pending;
    PendingZero(g.succ, {}, 0, [], v);
    assert Waits(g.succ, {}, 0, [], u, v);
  }

  /** Steps that tell nobody and release nobody. */
  lemma Quiet(g: Plan, s: State, s': State, x: nat)
    requires Inv(g, s) && Sized(g, s') && x < |g.succ| && s'.remaining == s.remaining && s'.sent == s.sent
    requires s'.status == s.status[x := s'.status[x]] && s.status[x] != Waiting && s'.status[x] != Waiting
    requires forall v :: Told(s'.status[x], g.succ[x], v) == Told(s.status[x], g.succ[x], v) || !Edge(g.succ, x, v)
    requires s'.pending == Count(|g.succ|, NotDone(s'.status))
    ensures Inv(g, s')
  {
    forall v | 0 <= v < |g.succ|
      ensures s'.remaining[v] == Count(|g.succ|, Owes(g, s'.status, v))
    {
      CountSame(|g.succ|, Owes(g, s.status, v), Owes(g, s'.status, v));
    }
    assert forall v :: 0 <= v < |g.succ| ==> (Released(g, s', v) <==> Released(g, s, v));
  }

  lemma SamePending(g: Plan, s: State, s': State, x: nat)
    requires Sized(g, s) && Sized(g, s') && x < |g.succ| && s'.status == s.status[x := s'.status[x]]
    requires s.status[x].Done? == s'.status[x].Done?
    ensures Count(|g.succ|, NotDone(s'.status)) == Count(|g.succ|, NotDone(s.status))
  {
    CountSame(|g.succ|, NotDone(s'.status), NotDone(s.status));
  }

  lemma StartFinishInv(g: Plan, s: State, a: Action)
    requires Inv(g, s) && Enabled(g, s, a) && (a.Start? || a.Finish?)
    ensures Inv(g, Next(g, s, a))
  {
    var s' := Next(g, s, a);
    SamePending(g, s, s', a.v);
    Quiet(g, s, s', a.v);
  }

  lemma CompleteInv(g: Plan, s: State, v: nat)
    requires Inv(g, s) && Enabled(g, s, Complete(v))
    ensures Inv(g, Next(g, s, Complete(v)))
  {
    var s' := Next(g, s, Complete(v));
    CountLess(|g.succ|, NotDone(s.status), NotDone(s'.status), v);
    assert g.succ[v][..|g.succ[v]|] == g.succ[v];
    Quiet(g, s, s', v);
  }

  lemma RootInv(g: Plan, s: State)
    requires Compiled(g) && Inv(g, s) && Enabled(g, s, SubmitRoot)
    ensures Inv(g, Next(g, s, SubmitRoot))
  {
    hide Acyclic;
    hide Pending;
    var s', r := Next(g, s, SubmitRoot), g.roots[s.sent];
    assert r !in g.roots[..s.sent];
    assert s.status[r] == Waiting;
    assert g.roots[..s.sent + 1] == g.roots[..s.sent] + [r];
    SamePending(g, s, s', r);
    forall v | 0 <= v < |g.succ|
      ensures s'.remaining[v] == Count(|g.succ|, Owes(g, s'.status, v))
      ensures s'.status[v] != Waiting <==> Released(g, s', v)
    {
      CountSame(|g.succ|, Owes(g, s.status, v), Owes(g, s'.status, v));
      if v == r {
        RootFree(g, s, r);
      }
    }
  }

  lemma RootFree(g: Plan, s: State, r: nat)
    requires Compiled(g) && Inv(g, s) && r in g.roots && r < |g.succ|
    ensures s.remaining[r] == 0
  {
    hide Acyclic;
    forall u | 0 <= u < |g.succ|
      ensures !Owes(g, s.status, r)(u)
    {
      if Edge(g.succ, u, r) {
        NotRoot(g, u, r);
      }
    }
    CountZero(|g.succ|, Owes(g, s.status, r));
  }

  lemma NoSelfEdge(g: Plan, v: nat)
    requires Compiled(g)
    ensures !Edge(g.succ, v, v)
  {
    var path := [v, v];
    assert path[0] == path[|path| - 1];
    assert Edge(g.succ, v, v) ==> Path(g.succ, path);
  }

  lemma TellCounts(g: Plan, s: State, v: nat, x: nat)
    requires Compiled(g) && Inv(g, s) && Enabled(g, s, Tell(v)) && x < |g.succ|
    ensures
      var s', w := Next(g, s, Tell(v)), g.succ[v][s.status[v].next];
      s'.remaining[x] == Count(|g.succ|, Owes(g, s'.status, x)) && v != w && s.status[w] == Waiting && w !in g.roots
  {
    hide Acyclic;
    hide Pending;
    var s', i := Next(g, s, Tell(v)), s.status[v].next;
    var w := g.succ[v][i];
    assert Edge(g.succ, v, w);
    NoSelfEdge(g, v);
    NotRoot(g, v, w);
    assert !Released(g, s, w);
    assert g.succ[v][..i + 1] == g.succ[v][..i] + [w];
    assert w !in g.succ[v][..i];
    var f, f' := Owes(g, s.status, x), Owes(g, s'.status, x);
    if x == w {
      CountLess(|g.succ|, f, f', v);
    } else {
      CountSame(|g.succ|, f, f');
    }
  }

  lemma TellInv(g: Plan, s: State, v: nat)
    requires Compiled(g) && Inv(g, s) && Enabled(g, s, Tell(v))
    ensures Inv(g, Next(g, s, Tell(v)))
  {
    hide Compiled;
    hide Owes;
    var s', w := Next(g, s, Tell(v)), g.succ[v][s.status[v].next];
    forall x | 0 <= x < |g.succ|
      ensures s'.remaining[x] == Count(|g.succ|, Owes(g, s'.status, x))
      ensures s'.status[x] != Waiting <==> Released(g, s', x)
    {
      TellCounts(g, s, v, x);
    }
    TellCounts(g, s, v, w);
    CountSame(|g.succ|, NotDone(s'.status), NotDone(s.status));
  }

  lemma StepInv(g: Plan, s: State, a: Action)
    requires Compiled(g) && Inv(g, s) && Enabled(g, s, a)
    ensures Inv(g, Next(g, s, a))
  {
    hide Inv;
    match a
    case SubmitRoot => RootInv(g, s);
    case Tell(v) => TellInv(g, s, v);
    case Complete(v) => CompleteInv(g, s, v);
    case _ => StartFinishInv(g, s, a);
  }

  // ---------- order and progress ----------

  /** A task starts only after every task it depends on has finished. */
  lemma StartsAfterPredecessors(g: Plan, s: State, v: nat, u: nat)
    requires Inv(g, s) && Enabled(g, s, Start(v)) && Edge(g.succ, u, v)
    ensures s.status[u].Telling? || s.status[u].Done?
  {
    CountZero(|g.succ|, Owes(g, s.status, v));
    assert !Owes(g, s.status, v)(u);
  }

  predicate AllDone(s: State) {
    forall v :: 0 <= v < |s.status| ==> s.status[v].Done?
  }

  /** The wait group opens exactly when every task is done. */
  lemma PendingMeansDone(g: Plan, s: State)
    requires Inv(g, s)
    ensures s.pending == 0 <==> AllDone(s)
  {
    var f := NotDone(s.status);
    CountZero(|g.succ|, f);
    assert forall v :: 0 <= v < |s.status| ==> (f(v) <==> !s.status[v].Done?);
  }

  /** A node that waits for others waits for one that has not been told itself. */
  lemma WaitsForWaiting(g: Plan, s: State, nodes: set<nat>, v: nat)
    requires Compiled(g) && Inv(g, s) && v < |g.succ| && s.status[v] == Waiting && s.sent == |g.roots|
    requires forall u :: 0 <= u < |g.succ| ==> s.status[u] in {Waiting, Done}
    requires forall u :: u in nodes <==> 0 <= u < |g.succ| && s.status[u] == Waiting
    ensures Fed(g.succ, nodes, v)
  {
    hide Acyclic;
    assert !Released(g, s, v);
    assert g.roots[..|g.roots|] == g.roots;
    CountZero(|g.succ|, Owes(g, s.status, v));
    var u :| 0 <= u < |g.succ| && Owes(g, s.status, v)(u);
    assert u in nodes && Edge(g.succ, u, v);
  }

  /** As long as a task is not done, some step is possible: nothing gets stuck. */
  lemma Progress(g: Plan, s: State)
    requires Compiled(g) && Inv(g, s) && !AllDone(s)
    ensures exists a :: Enabled(g, s, a)
  {
    hide Acyclic;
    hide Pending;
    if s.sent < |g.roots| {
      assert Enabled(g, s, SubmitRoot);
    } else if v :| 0 <= v < |g.succ| && s.status[v] == Submitted {
      assert Enabled(g, s, Start(v));
    } else if v :| 0 <= v < |g.succ| && s.status[v] == Running {
      assert Enabled(g, s, Finish(v));
    } else if v :| 0 <= v < |g.succ| && s.status[v].Telling? {
      TellPossible(g, s, v);
    } else {
      OnlyWaiting(g, s);
    }
  }

  lemma TellPossible(g: Plan, s: State, v: nat)
    requires Compiled(g) && Inv(g, s) && v < |g.succ| && s.status[v].Telling?
    ensures Enabled(g, s, Tell(v)) || Enabled(g, s, Complete(v))
  {
    hide Acyclic;
    hide Pending;
    var i := s.status[v].next;
    if i < |g.succ[v]| {
      var w := g.succ[v][i];
      assert Edge(g.succ, v, w) && w !in g.succ[v][..i];
      CountZero(|g.succ|, Owes(g, s.status, w));
      assert Owes(g, s.status, w)(v);
    }
  }

  lemma OnlyWaiting(g: Plan, s: State)
    requires Compiled(g) && Inv(g, s) && s.sent == |g.roots|
    requires forall u :: 0 <= u < |g.succ| ==> s.status[u] in {Waiting, Done}
    ensures AllDone(s)
  {
    hide Inv;
    BelowAll(|g.succ|);
    assert |s.status| == |g.succ| by { InvSized(g, s); }
    var nodes := set u | u in Below(|g.succ|) && s.status[u] == Waiting;
    forall v | v in nodes
      ensures Fed(g.succ, nodes, v)
    {
      WaitsForWaiting(g, s, nodes, v);
    }
    if nodes != {} {
      CycleFrom(g.succ, nodes);
    }
    forall v | 0 <= v < |s.status|
      ensures s.status[v].Done?
    {
      assert v in Below(|g.succ|) && v !in nodes;
    }
  }

  lemma InvSized(g: Plan, s: State)
    requires Inv(g, s)
    ensures Sized(g, s)
  {
  }

  // ---------- every run ends ----------

  function Left(st: Status, out: seq<nat>): nat {
    match st
    case Waiting => |out| + 4
    case Submitted => |out| + 3
    case Running => |out| + 2
    case Telling(i) => if i <= |out| then |out| + 1 - i else 1
    case Done => 0
  }

  function TotalLeft(g: Plan, status: seq<Status>, n: nat): nat
    requires n <= |status| == |g.succ|
  {
    if n == 0 then 0 else TotalLeft(g, status, n - 1) + Left(status[n - 1], g.succ[n - 1])
  }

  function Work(g: Plan, s: State): nat
    requires Sized(g, s)
  {
    TotalLeft(g, s.status, |g.succ|) + (|g.roots| - s.sent)
  }

  lemma {:induction false} LessLeft(g: Plan, status: seq<Status>, status': seq<Status>, n: nat)
    requires n <= |status| == |status'| == |g.succ|
    requires forall v :: 0 <= v < n ==> Left(status'[v], g.succ[v]) <= Left(status[v], g.succ[v])
    ensures TotalLeft(g, status', n) <= TotalLeft(g, status, n)
    ensures (exists v :: 0 <= v < n && Left(status'[v], g.succ[v]) < Left(status[v], g.succ[v])) ==>
      TotalLeft(g, status', n) < TotalLeft(g, status, n)
  {
    if n > 0 {
      LessLeft(g, status, status', n - 1);
    }
  }

  /** Every step leaves less work, so a run is never longer than the work at its start. */
  lemma StepsDown(g: Plan, s: State, a: Action)
    requires Compiled(g) && Inv(g, s) && Enabled(g, s, a)
    ensures Sized(g, Next(g, s, a)) && Work(g, Next(g, s, a)) < Work(g, s)
  {
    hide Acyclic;
    hide Pending;
    hide TotalLeft;
    var s' := Next(g, s, a);
    if a.Tell? {
      TellCounts(g, s, a.v, a.v);
    }
    if a.SubmitRoot? {
      assert s.status[g.roots[s.sent]] == Waiting by {
        assert g.roots[s.sent] !in g.roots[..s.sent];
        assert !Released(g, s, g.roots[s.sent]);
      }
    }
    LessLeft(g, s.status, s'.status, |g.succ|);
  }

  ghost predicate IsRun(g: Plan, run: seq<State>, actions: seq<Action>) {
    && |run| == |actions| + 1 && Init(g, run[0])
    && forall i :: 0 <= i < |actions| ==> Enabled(g, run[i], actions[i]) && run[i + 1] == Next(g, run[i], actions[i])
  }

  lemma {:induction false} RunInv(g: Plan, run: seq<State>, actions: seq<Action>, i: nat)
    requires Compiled(g) && IsRun(g, run, actions) && i < |run|
    ensures Inv(g, run[i]) && Work(g, run[i]) + i <= Work(g, run[0])
  {
    hide Next;
    hide Enabled;
    hide Compiled;
    hide TotalLeft;
    InitInv(g, run[0]);
    if i > 0 {
      RunInv(g, run, actions, i - 1);
      hide Inv;
      InvSized(g, run[0]);
      assert run[i - 1 + 1] == Next(g, run[i - 1], actions[i - 1]);
      StepInv(g, run[i - 1], actions[i - 1]);
      StepsDown(g, run[i - 1], actions[i - 1]);
    }
  }

  /** A run that cannot go on has done every task, and the wait group is open; and every run gets there. */
  lemma EveryRunCompletes(g: Plan, run: seq<State>, actions: seq<Action>)
    requires Compiled(g) && IsRun(g, run, actions)
    ensures |run[0].status| == |g.succ| && Sized(g, run[0]) && |actions| <= Work(g, run[0])
    ensures (forall a :: !Enabled(g, run[|actions|], a)) ==> AllDone(run[|actions|]) && run[|actions|].pending == 0
  {
    hide Inv;
    hide Compiled;
    RunInv(g, run, actions, |actions|);
    RunInv(g, run, actions, 0);
    InvSized(g, run[0]);
    InvSized(g, run[|actions|]);
    PendingMeansDone(g, run[|actions|]);
    if !AllDone(run[|actions|]) {
      Progress(g, run[|actions|]);
    }
  }

  /** Position of a status on the way from waiting to done. */
  function Stage(st: Status): nat {
    match st
    case Waiting => 0
    case Submitted => 1
    case Running => 2
    case Telling(_) => 3
    case Done => 4
  }

  lemma StageStep(g: Plan, s: State, a: Action, v: nat)
    requires Compiled(g) && Inv(g, s) && Enabled(g, s, a) && v < |g.succ|
    ensures |Next(g, s, a).status| == |s.status| == |g.succ|
    ensures Stage(s.status[v]) <= Stage(Next(g, s, a).status[v])
  {
    hide Compiled;
    hide Inv;
    if a.Tell? {
      TellCounts(g, s, a.v, a.v);
    }
    if a.SubmitRoot? {
      RootWaits(g, s);
    }
  }

  lemma {:induction false} StagesRise(g: Plan, run: seq<State>, actions: seq<Action>, i: nat, j: nat, v: nat)
    requires Compiled(g) && IsRun(g, run, actions) && i <= j < |run| && v < |g.succ|
    ensures v < |run[i].status| && v < |run[j].status| && Stage(run[i].status[v]) <= Stage(run[j].status[v])
    decreases j
  {
    hide Compiled;
    hide Inv;
    hide Next;
    hide Enabled;
    hide Stage;
    hide Work;
    RunInv(g, run, actions, j);
    InvSized(g, run[j]);
    if i < j {
      StagesRise(g, run, actions, i, j - 1, v);
      RunInv(g, run, actions, j - 1);
      assert Enabled(g, run[j - 1], actions[j - 1]) && run[j - 1 + 1] == Next(g, run[j - 1], actions[j - 1]);
      StageStep(g, run[j - 1], actions[j - 1], v);
    }
  }

  lemma RootWaits(g: Plan, s: State)
    requires Compiled(g) && Inv(g, s) && Enabled(g, s, SubmitRoot)
    ensures s.status[g.roots[s.sent]] == Waiting
  {
    hide Acyclic;
    hide Pending;
    assert g.roots[s.sent] !in g.roots[..s.sent];
    assert !Released(g, s, g.roots[s.sent]);
  }

  lemma RunsOnlyByStart(g: Plan, s: State, a: Action, v: nat)
    requires Compiled(g) && Inv(g, s) && Enabled(g, s, a) && v < |g.succ|
    ensures |Next(g, s, a).status| == |s.status| == |g.succ|
    ensures Stage(s.status[v]) < 2 <= Stage(Next(g, s, a).status[v]) ==> a == Start(v)
  {
    hide Compiled;
    hide Inv;
  }

  /** A task that is running or beyond was started by an earlier step. */
  lemma {:induction false} Started(g: Plan, run: seq<State>, actions: seq<Action>, i: nat, v: nat) returns (j: nat)
    requires Compiled(g) && IsRun(g, run, actions) && i < |run| && v < |g.succ| && v < |run[i].status|
    requires Stage(run[i].status[v]) >= 2
    ensures j < i && actions[j] == Start(v)
  {
    hide Compiled;
    hide Inv;
    hide Next;
    hide Enabled;
    hide Work;
    if i > 0 {
      var s, a := run[i - 1], actions[i - 1];
      RunInv(g, run, actions, i - 1);
      assert Enabled(g, s, a) && run[i - 1 + 1] == Next(g, s, a);
      RunsOnlyByStart(g, s, a, v);
      if Stage(s.status[v]) >= 2 {
        j := Started(g, run, actions, i - 1, v);
      } else {
        j := i - 1;
      }
    }
  }

  /** A run that cannot go on has started every task exactly once. */
  lemma StartsExactlyOnce(g: Plan, run: seq<State>, actions: seq<Action>, v: nat) returns (j: nat)
    requires Compiled(g) && IsRun(g, run, actions) && v < |g.succ|
    requires forall a :: !Enabled(g, run[|actions|], a)
    ensures j < |actions| && actions[j] == Start(v)
    ensures forall k :: 0 <= k < |actions| && k != j ==> actions[k] != Start(v)
  {
    hide Compiled;
    hide Inv;
    hide Next;
    hide Work;
    EveryRunCompletes(g, run, actions);
    RunInv(g, run, actions, |actions|);
    InvSized(g, run[|actions|]);
    j := Started(g, run, actions, |actions|, v);
    forall k | 0 <= k < |actions| && k != j
      ensures actions[k] != Start(v)
    {
      if k < j {
        if actions[k] == Start(v) {
          StartsOnce(g, run, actions, k, j, v);
        }
      } else {
        StartsOnce(g, run, actions, j, k, v);
      }
    }
  }

  /** No task is started twice. */
  lemma StartsOnce(g: Plan, run: seq<State>, actions: seq<Action>, i: nat, j: nat, v: nat)
    requires Compiled(g) && IsRun(g, run, actions) && i < j < |actions| && actions[i] == Start(v)
    ensures actions[j] != Start(v)
  {
    hide Compiled;
    assert Enabled(g, run[i], actions[i]) && run[i + 1] == Next(g, run[i], actions[i]);
    StagesRise(g, run, actions, i + 1, j, v);
    assert Enabled(g, run[j], actions[j]);
  }
}
