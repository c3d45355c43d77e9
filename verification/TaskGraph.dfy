/** The task graph: adding nodes and edges, and the check by counting in-degrees that it has no cycle. */
module TaskGraph {
  import opened Basics

  type Edges = seq<seq<nat>>

  predicate InGraph(succ: Edges) {
    forall u, i :: 0 <= u < |succ| && 0 <= i < |succ[u]| ==> succ[u][i] < |succ|
  }

  predicate Edge(succ: Edges, u: nat, v: nat) {
    u < |succ| && v < |succ| && v in succ[u]
  }

  /** A walk along edges. */
  predicate Path(succ: Edges, path: seq<nat>) {
    |path| > 0 && forall i :: 0 <= i < |path| - 1 ==> Edge(succ, path[i], path[i + 1])
  }

  ghost predicate Acyclic(succ: Edges) {
    forall path: seq<nat> :: Path(succ, path) && |path| > 1 ==> path[0] != path[|path| - 1]
  }

  // ---------- cycles ----------

  ghost predicate Fed(succ: Edges, nodes: set<nat>, v: nat) {
    exists u :: u in nodes && Edge(succ, u, v)
  }

  lemma PathPrefix(succ: Edges, path: seq<nat>, k: nat)
    requires Path(succ, path) && 0 < k <= |path|
    ensures Path(succ, path[..k])
  {
    hide Edge;
    forall i | 0 <= i < k - 1
      ensures Edge(succ, path[..k][i], path[..k][i + 1])
    {
      assert Edge(succ, path[i], path[i + 1]);
    }
  }

  lemma PathCons(succ: Edges, u: nat, path: seq<nat>)
    requires Path(succ, path) && Edge(succ, u, path[0])
    ensures Path(succ, [u] + path)
  {
    hide Edge;
    var longer := [u] + path;
    forall i | 0 <= i < |longer| - 1
      ensures Edge(succ, longer[i], longer[i + 1])
    {
      if i > 0 {
        assert Edge(succ, path[i - 1], path[i - 1 + 1]);
      }
    }
  }

  /** Nodes of which each has a predecessor among them contain a cycle. */
  lemma {:induction false} CycleWithin(succ: Edges, nodes: set<nat>, path: seq<nat>) returns (cycle: seq<nat>)
    requires forall v :: v in nodes ==> Fed(succ, nodes, v)
    requires Path(succ, path) && Distinct(path) && forall i :: 0 <= i < |path| ==> path[i] in nodes
    ensures Path(succ, cycle) && |cycle| > 1 && cycle[0] == cycle[|cycle| - 1]
    decreases |nodes| - |path|
  {
    hide Path;
    hide Fed;
    hide Edge;
    PathNonempty(succ, path);
    DistinctSize(path, nodes);
    var u := Feeder(succ, nodes, path[0]);
    if i :| 0 <= i < |path| && path[i] == u {
      PathPrefix(succ, path, i + 1);
      cycle := [u] + path[..i + 1];
      PathCons(succ, u, path[..i + 1]);
    } else {
      var longer := [u] + path;
      PathCons(succ, u, path);
      DistinctSize(longer, nodes);
      cycle := CycleWithin(succ, nodes, longer);
    }
  }

  lemma PathNonempty(succ: Edges, path: seq<nat>)
    requires Path(succ, path)
    ensures |path| > 0
  {
  }

  lemma Feeder(succ: Edges, nodes: set<nat>, v: nat) returns (u: nat)
    requires Fed(succ, nodes, v)
    ensures u in nodes && Edge(succ, u, v)
  {
    u :| u in nodes && Edge(succ, u, v);
  }

  lemma CycleFrom(succ: Edges, nodes: set<nat>)
    requires nodes != {} && forall v :: v in nodes ==> Fed(succ, nodes, v)
    ensures !Acyclic(succ)
  {
    hide Fed;
    hide Edge;
    var v :| v in nodes;
    assert Path(succ, [v]);
    var cycle := CycleWithin(succ, nodes, [v]);
  }

  predicate Distinct(s: seq<nat>) {
    forall i, j :: 0 <= i < j < |s| ==> s[i] != s[j]
  }

  lemma {:induction false} DistinctSize(s: seq<nat>, nodes: set<nat>)
    requires Distinct(s) && forall i :: 0 <= i < |s| ==> s[i] in nodes
    ensures |s| <= |nodes|
    decreases |s|
  {
    if s != [] {
      var last := s[|s| - 1];
      assert forall i :: 0 <= i < |s| - 1 ==> s[..|s| - 1][i] == s[i];
      DistinctSize(s[..|s| - 1], nodes - {last});
    }
  }

  /** An order in which every edge goes forward. */
  predicate Topological(succ: Edges, order: seq<nat>) {
    && (forall v :: 0 <= v < |succ| ==> v in order)
    && (forall j, u :: 0 <= j < |order| && 0 <= u < |succ| && Edge(succ, u, order[j]) ==> u in order[..j])
    && Distinct(order)
  }

  lemma {:induction false} PathForward(succ: Edges, order: seq<nat>, path: seq<nat>, i: nat, j: nat)
    requires Topological(succ, order) && Path(succ, path) && |path| > 1
    requires i < |order| && j < |order| && order[i] == path[0] && order[j] == path[|path| - 1]
    ensures i < j
    decreases |path|
  {
    var m := |path| - 2;
    assert Edge(succ, path[m], path[m + 1]);
    assert path[m] in order[..j];
    var k :| 0 <= k < j && order[k] == path[m];
    if m > 0 {
      PathPrefix(succ, path, m + 1);
      PathForward(succ, order, path[..m + 1], i, k);
    }
  }

  lemma OrderedIsAcyclic(succ: Edges, order: seq<nat>)
    requires Topological(succ, order)
    ensures Acyclic(succ)
  {
    forall path: seq<nat> | Path(succ, path) && |path| > 1
      ensures path[0] != path[|path| - 1]
    {
      assert Edge(succ, path[0], path[0 + 1]);
      assert path[0] in order;
      var i :| 0 <= i < |order| && order[i] == path[0];
      if path[0] == path[|path| - 1] {
        PathForward(succ, order, path, i, i);
      }
    }
  }

  // ---------- counting predecessors ----------

  /** How many of the first n numbers have the property. */
  function Count(n: nat, f: nat -> bool): nat {
    if n == 0 then 0 else Count(n - 1, f) + (if f(n - 1) then 1 else 0)
  }

  lemma {:induction false} CountSame(n: nat, f: nat -> bool, g: nat -> bool)
    requires forall u :: 0 <= u < n ==> f(u) == g(u)
    ensures Count(n, f) == Count(n, g)
  {
    if n > 0 {
      CountSame(n - 1, f, g);
    }
  }

  lemma {:induction false} CountLess(n: nat, f: nat -> bool, g: nat -> bool, x: nat)
    requires x < n && f(x) && !g(x) && forall u :: 0 <= u < n && u != x ==> f(u) == g(u)
    ensures Count(n, f) == Count(n, g) + 1
  {
    if x == n - 1 {
      CountSame(n - 1, f, g);
    } else {
      CountLess(n - 1, f, g, x);
    }
  }

  lemma {:induction false} CountZero(n: nat, f: nat -> bool)
    ensures Count(n, f) == 0 <==> forall u :: 0 <= u < n ==> !f(u)
  {
    if n > 0 {
      CountZero(n - 1, f);
    }
  }

  /** Predecessor u of v is not done, nor is it the node x that is just telling its successors, v among them already. */
  predicate Waits(succ: Edges, done: set<nat>, x: nat, told: seq<nat>, u: nat, v: nat) {
    Edge(succ, u, v) && u !in done && !(u == x && v in told)
  }

  function Waiter(succ: Edges, done: set<nat>, x: nat, told: seq<nat>, v: nat): nat -> bool {
    (u: nat) => Waits(succ, done, x, told, u, v)
  }

  function Pending(succ: Edges, done: set<nat>, x: nat, told: seq<nat>, v: nat): nat {
    Count(|succ|, Waiter(succ, done, x, told, v))
  }

  lemma PendingZero(succ: Edges, done: set<nat>, x: nat, told: seq<nat>, v: nat)
    ensures Pending(succ, done, x, told, v) == 0 <==>
      forall u :: 0 <= u < |succ| ==> !Waits(succ, done, x, told, u, v)
  {
    hide Waits;
    var f := Waiter(succ, done, x, told, v);
    CountZero(|succ|, f);
    assert forall u: nat :: f(u) == Waits(succ, done, x, told, u, v);
  }

  lemma PendingTell(succ: Edges, done: set<nat>, x: nat, i: nat, v: nat)
    requires x < |succ| && x !in done && i < |succ[x]| && Distinct(succ[x]) && InGraph(succ)
    ensures
      var before, after := Pending(succ, done, x, succ[x][..i], v), Pending(succ, done, x, succ[x][..i + 1], v);
      if v == succ[x][i] then before == after + 1 else before == after
  {
    var f := Waiter(succ, done, x, succ[x][..i], v);
    var g := Waiter(succ, done, x, succ[x][..i + 1], v);
    assert succ[x][..i + 1] == succ[x][..i] + [succ[x][i]];
    if v == succ[x][i] {
      assert Edge(succ, x, v);
      assert v !in succ[x][..i];
      CountLess(|succ|, f, g, x);
    } else {
      CountSame(|succ|, f, g);
    }
  }

  lemma PendingStart(succ: Edges, done: set<nat>, x: nat, y: nat, v: nat)
    ensures Pending(succ, done, x, [], v) == Pending(succ, done, y, [], v)
  {
    CountSame(|succ|, Waiter(succ, done, x, [], v), Waiter(succ, done, y, [], v));
  }

  lemma PendingEnd(succ: Edges, done: set<nat>, x: nat, v: nat)
    requires x < |succ|
    ensures Pending(succ, done, x, succ[x], v) == Pending(succ, done + {x}, x, [], v)
  {
    CountSame(|succ|, Waiter(succ, done, x, succ[x], v), Waiter(succ, done + {x}, x, [], v));
  }

  function Members(s: seq<nat>): set<nat> {
    set i | 0 <= i < |s| :: s[i]
  }

  /** The state of the count: what is queued is what waits for nothing, and comes after all it depends on. */
  ghost predicate Counted(succ: Edges, deg: seq<nat>, queue: seq<nat>, done: set<nat>, x: nat, told: seq<nat>) {
    && |deg| == |succ|
    && (forall v :: 0 <= v < |succ| ==> deg[v] == Pending(succ, done, x, told, v))
    && QueueOk(succ, deg, queue)
  }

  predicate QueueOk(succ: Edges, deg: seq<nat>, queue: seq<nat>)
    requires |deg| == |succ|
  {
    && Distinct(queue) && (forall j :: 0 <= j < |queue| ==> queue[j] < |succ|)
    && (forall v :: 0 <= v < |succ| ==> (v in queue <==> deg[v] == 0))
    && (forall j, u :: 0 <= j < |queue| && 0 <= u < |succ| && Edge(succ, u, queue[j]) ==> u in queue[..j])
  }

  lemma QueueFits(succ: Edges, deg: seq<nat>, queue: seq<nat>)
    requires |deg| == |succ| && QueueOk(succ, deg, queue)
    ensures |queue| <= |succ|
    ensures |queue| < |succ| <==> exists v :: 0 <= v < |succ| && v !in queue
  {
    hide Edge;
    var all := Below(|succ|);
    BelowAll(|succ|);
    DistinctSize(queue, all);
    if v :| 0 <= v < |succ| && v !in queue {
      DistinctSize(queue, all - {v});
    } else {
      forall v | v in all
        ensures v in Members(queue)
      {
        assert v in queue;
        var i :| 0 <= i < |queue| && queue[i] == v;
      }
      SubsetSize(all, Members(queue));
      MembersSize(queue);
    }
  }

  function Below(n: nat): set<nat> {
    if n == 0 then {} else Below(n - 1) + {n - 1}
  }

  lemma {:induction false} BelowAll(n: nat)
    ensures |Below(n)| == n && forall v :: v in Below(n) <==> 0 <= v < n
  {
    if n > 0 {
      BelowAll(n - 1);
    }
  }

  lemma {:induction false} MembersSize(s: seq<nat>)
    ensures |Members(s)| <= |s|
  {
    if s != [] {
      var front := s[..|s| - 1];
      MembersSize(front);
      assert Members(s) == Members(front) + {s[|s| - 1]};
    }
  }

  /** One successor is told; if it waits for nothing else it joins the queue. */
  lemma Tell(succ: Edges, deg: seq<nat>, queue: seq<nat>, done: set<nat>, x: nat, i: nat, deg': seq<nat>,
             queue': seq<nat>)
    requires InGraph(succ) && x < |succ| && x !in done && i < |succ[x]| && Distinct(succ[x])
    requires Counted(succ, deg, queue, done, x, succ[x][..i]) && x in queue && done <= Members(queue)
    requires deg[succ[x][i]] > 0 && deg' == deg[succ[x][i] := deg[succ[x][i]] - 1]
    requires queue' == if deg'[succ[x][i]] == 0 then queue + [succ[x][i]] else queue
    ensures Counted(succ, deg', queue', done, x, succ[x][..i + 1])
  {
    hide Edge;
    hide Pending;
    hide Waits;
    var v := succ[x][i];
    forall w | 0 <= w < |succ|
      ensures deg'[w] == Pending(succ, done, x, succ[x][..i + 1], w)
    {
      PendingTell(succ, done, x, i, w);
    }
    if deg'[v] == 0 {
      ToldAll(succ, queue, done, x, succ[x][..i + 1], v);
      assert queue'[..|queue|] == queue;
      forall j, u | 0 <= j < |queue'| && 0 <= u < |succ| && Edge(succ, u, queue'[j])
        ensures u in queue'[..j]
      {
        if j < |queue| {
          assert queue'[..j] == queue[..j];
        }
      }
    }
  }

  lemma ToldAll(succ: Edges, queue: seq<nat>, done: set<nat>, x: nat, told: seq<nat>, v: nat)
    requires Pending(succ, done, x, told, v) == 0 && x in queue && done <= Members(queue)
    ensures forall u :: 0 <= u < |succ| && Edge(succ, u, v) ==> u in queue
  {
    PendingZero(succ, done, x, told, v);
    forall u | 0 <= u < |succ| && Edge(succ, u, v)
      ensures u in queue
    {
      assert !Waits(succ, done, x, told, u, v);
      assert u in done ==> u in Members(queue);
    }
  }

  lemma TellPositive(succ: Edges, deg: seq<nat>, queue: seq<nat>, done: set<nat>, x: nat, i: nat)
    requires InGraph(succ) && x < |succ| && x !in done && i < |succ[x]| && Distinct(succ[x])
    requires Counted(succ, deg, queue, done, x, succ[x][..i])
    ensures deg[succ[x][i]] > 0
  {
    PendingTell(succ, done, x, i, succ[x][i]);
  }

  // ---------- the graph ----------

  function Degree(succ: Edges, v: nat): nat {
    Pending(succ, {}, 0, [], v)
  }

  class Graph {
    var succ: Edges
    var inDegree: seq<nat>
    var roots: seq<nat>
    var compiled: bool

    ghost predicate Valid()
      reads this
    {
      && InGraph(succ) && |inDegree| == |succ|
      && (forall u :: 0 <= u < |succ| ==> Distinct(succ[u]))
      && (forall v :: 0 <= v < |succ| ==> inDegree[v] == Degree(succ, v))
      && (compiled ==> Acyclic(succ) && RootsOf(succ, roots))
    }

    constructor ()
      ensures Valid() && succ == [] && !compiled
    {
      succ := [];
      inDegree := [];
      roots := [];
      compiled := false;
    }

    /** The check of the compile step: nodes are taken in an order in which each comes after all it depends on. */
    method Kahn() returns (ok: bool, ghost order: seq<nat>)
      requires Valid()
      ensures ok ==> Topological(succ, order)
      ensures !ok ==> !Acyclic(succ)
    {
      hide Pending;
      hide Counted;
      hide InGraph;
      hide Acyclic;
      var n := |succ|;
      var deg := inDegree;
      var queue: seq<nat> := [];
      for i := 0 to n
        invariant Distinct(queue) && forall j :: 0 <= j < |queue| ==> queue[j] < i
        invariant forall v :: 0 <= v < i ==> (v in queue <==> deg[v] == 0)
        invariant forall j :: 0 <= j < |queue| ==> deg[queue[j]] == 0
      {
        if deg[i] == 0 {
          queue := queue + [i];
        }
      }
      Start(succ, deg, queue);
      var head := 0;
      while head < |queue|
        invariant head <= |queue| && |deg| == n && Counted(succ, deg, queue, Members(queue[..head]), 0, [])
        invariant |queue| <= n
        decreases n - head
      {
        var x := queue[head];
        ghost var done := Members(queue[..head]);
        QueueFacts(succ, deg, queue, done, 0, [], head);
        Restart(succ, deg, queue, done, 0, x);
        head := head + 1;
        assert succ[x][..0] == [];
        for i := 0 to |succ[x]|
          invariant |deg| == n && head <= |queue| && queue[head - 1] == x
          invariant Members(queue[..head - 1]) == done && x in queue && done <= Members(queue)
          invariant Counted(succ, deg, queue, done, x, succ[x][..i])
        {
          var v := succ[x][i];
          TellPositive(succ, deg, queue, done, x, i);
          ghost var deg0, queue0 := deg, queue;
          assert v < n by { TargetInGraph(succ, x, i); }
          deg := deg[v := deg[v] - 1];
          if deg[v] == 0 {
            queue := queue + [v];
          }
          Tell(succ, deg0, queue0, done, x, i, deg, queue);
          assert queue[..head - 1] == queue0[..head - 1];
        }
        assert succ[x][..|succ[x]|] == succ[x];
        NodeDone(succ, deg, queue, done, x, head);
      }
      assert queue[..head] == queue;
      ok := head == n;
      order := queue;
      Verdict(succ, deg, queue);
    }

    /** Accepts the graph exactly if it has no cycle, and then finds the nodes to start with. */
    method Compile() returns (ok: bool)
      requires Valid()
      modifies this`roots, this`compiled
      ensures Valid() && (ok <==> Acyclic(succ)) && compiled == ok
    {
      hide Pending;
      hide Acyclic;
      if compiled {
        return true;
      }
      ghost var order;
      ok, order := Kahn();
      if !ok {
        return;
      }
      OrderedIsAcyclic(succ, order);
      var found: seq<nat> := [];
      for i := 0 to |succ|
        invariant forall j :: 0 <= j < |found| ==> found[j] < i && inDegree[found[j]] == 0
        invariant forall v :: 0 <= v < i && inDegree[v] == 0 ==> v in found
        invariant forall j, k :: 0 <= j < k < |found| ==> found[j] < found[k]
      {
        if inDegree[i] == 0 {
          found := found + [i];
        }
      }
      roots := found;
      compiled := true;
    }

    method AddNode() returns (id: nat, ok: bool)
      requires Valid()
      modifies this`succ, this`inDegree
      ensures Valid() && ok == !compiled && id == old(|succ|)
      ensures succ == if ok then old(succ) + [[]] else old(succ)
    {
      hide Pending;
      id, ok := |succ|, !compiled;
      if ok {
        NewNode(succ);
        forall v | 0 <= v < |succ|
          ensures inDegree[v] == Degree(succ + [[]], v)
        {
          NodeDegree(succ, v);
        }
        succ := succ + [[]];
        inDegree := inDegree + [0];
      }
    }

    /** Adds an edge once; adding it again changes nothing. */
    method AddEdge(from: nat, to: nat) returns (ok: bool)
      requires Valid()
      modifies this`succ, this`inDegree
      ensures Valid() && ok == (!compiled && from < |succ| && to < |succ|) && |succ| == old(|succ|)
      ensures forall u, v :: Edge(succ, u, v) <==> old(Edge(succ, u, v)) || (ok && u == from && v == to)
    {
      hide Pending;
      if compiled || from >= |succ| || to >= |succ| {
        return false;
      }
      for i := 0 to |succ[from]|
        invariant to !in succ[from][..i]
      {
        if succ[from][i] == to {
          return true;
        }
      }
      assert to !in succ[from];
      ghost var before := succ;
      forall v | 0 <= v < |succ|
        ensures Degree(Joined(succ, from, to), v) == Degree(succ, v) + (if v == to then 1 else 0)
      {
        EdgeDegree(succ, from, to, v);
      }
      succ := succ[from := succ[from] + [to]];
      inDegree := inDegree[to := inDegree[to] + 1];
      forall u, v
        ensures Edge(succ, u, v) <==> Edge(before, u, v) || (u == from && v == to)
      {
        JoinedEdges(before, from, to, u, v);
      }
      return true;
    }
  }

  function Joined(succ: Edges, from: nat, to: nat): Edges
    requires from < |succ|
  {
    succ[from := succ[from] + [to]]
  }

  lemma JoinedEdges(succ: Edges, from: nat, to: nat, u: nat, v: nat)
    requires from < |succ| && to < |succ|
    ensures Edge(Joined(succ, from, to), u, v) <==> Edge(succ, u, v) || (u == from && v == to)
  {
  }

  lemma EdgeDegree(succ: Edges, from: nat, to: nat, v: nat)
    requires from < |succ| && to < |succ| && v < |succ| && to !in succ[from]
    ensures Degree(Joined(succ, from, to), v) == Degree(succ, v) + (if v == to then 1 else 0)
  {
    var joined := Joined(succ, from, to);
    var f, g := Waiter(joined, {}, 0, [], v), Waiter(succ, {}, 0, [], v);
    forall u: nat
      ensures f(u) == (g(u) || (u == from && v == to))
    {
      JoinedEdges(succ, from, to, u, v);
    }
    hide Edge;
    if v == to {
      assert !g(from) by { assert !Edge(succ, from, to) by { NoEdge(succ, from, to); } }
      CountLess(|succ|, f, g, from);
    } else {
      CountSame(|succ|, f, g);
    }
  }

  lemma NoEdge(succ: Edges, from: nat, to: nat)
    requires from < |succ| && to !in succ[from]
    ensures !Edge(succ, from, to)
  {
  }

  lemma NodeDegree(succ: Edges, v: nat)
    requires v < |succ|
    ensures Degree(succ + [[]], v) == Degree(succ, v)
  {
    var f, g := Waiter(succ + [[]], {}, 0, [], v), Waiter(succ, {}, 0, [], v);
    assert !f(|succ|);
    CountSame(|succ|, f, g);
  }

  lemma NewNode(succ: Edges)
    requires InGraph(succ)
    ensures InGraph(succ + [[]]) && Degree(succ + [[]], |succ|) == 0
  {
    var longer, n := succ + [[]], |succ|;
    forall u | 0 <= u < |longer|
      ensures !Waits(longer, {}, 0, [], u, n)
    {
      assert u < n ==> n !in succ[u];
    }
    PendingZero(longer, {}, 0, [], n);
  }

  /** The nodes nothing leads to, in ascending order. */
  ghost predicate RootsOf(succ: Edges, roots: seq<nat>) {
    && (forall i :: 0 <= i < |roots| ==> roots[i] < |succ| && Degree(succ, roots[i]) == 0)
    && (forall v :: 0 <= v < |succ| && Degree(succ, v) == 0 ==> v in roots)
    && (forall i, j :: 0 <= i < j < |roots| ==> roots[i] < roots[j])
  }

  lemma TargetInGraph(succ: Edges, x: nat, i: nat)
    requires InGraph(succ) && x < |succ| && i < |succ[x]|
    ensures succ[x][i] < |succ|
  {
  }

  lemma Start(succ: Edges, deg: seq<nat>, queue: seq<nat>)
    requires |deg| == |succ| && forall v :: 0 <= v < |succ| ==> deg[v] == Degree(succ, v)
    requires Distinct(queue) && forall j :: 0 <= j < |queue| ==> queue[j] < |succ|
    requires forall v :: 0 <= v < |succ| ==> (v in queue <==> deg[v] == 0)
    ensures Counted(succ, deg, queue, Members(queue[..0]), 0, []) && |queue| <= |succ|
  {
    hide Pending;
    assert Members(queue[..0]) == {};
    forall j, u | 0 <= j < |queue| && 0 <= u < |succ|
      ensures !Edge(succ, u, queue[j])
    {
      assert deg[queue[j]] == 0;
      PendingZero(succ, {}, 0, [], queue[j]);
      assert !Waits(succ, {}, 0, [], u, queue[j]);
    }
    QueueFits(succ, deg, queue);
  }

  lemma QueueFacts(succ: Edges, deg: seq<nat>, queue: seq<nat>, done: set<nat>, x: nat, told: seq<nat>, head: nat)
    requires Counted(succ, deg, queue, done, x, told) && head < |queue| && done == Members(queue[..head])
    ensures queue[head] < |succ| && queue[head] !in done && done <= Members(queue) && |queue| <= |succ|
  {
    QueueFits(succ, deg, queue);
  }

  lemma Restart(succ: Edges, deg: seq<nat>, queue: seq<nat>, done: set<nat>, x: nat, y: nat)
    requires Counted(succ, deg, queue, done, x, [])
    ensures Counted(succ, deg, queue, done, y, [])
  {
    hide Pending;
    forall v | 0 <= v < |succ|
      ensures deg[v] == Pending(succ, done, y, [], v)
    {
      PendingStart(succ, done, x, y, v);
    }
  }

  lemma NodeDone(succ: Edges, deg: seq<nat>, queue: seq<nat>, done: set<nat>, x: nat, head: nat)
    requires x < |succ| && Counted(succ, deg, queue, done, x, succ[x]) && 0 < head <= |queue| && queue[head - 1] == x
    requires done == Members(queue[..head - 1])
    ensures Counted(succ, deg, queue, Members(queue[..head]), 0, []) && |queue| <= |succ|
  {
    hide Pending;
    assert queue[..head] == queue[..head - 1] + [x];
    assert Members(queue[..head]) == done + {x};
    forall v | 0 <= v < |succ|
      ensures deg[v] == Pending(succ, done + {x}, 0, [], v)
    {
      PendingEnd(succ, done, x, v);
      PendingStart(succ, done + {x}, x, 0, v);
    }
    QueueFits(succ, deg, queue);
  }

  /** If some node is never taken, the nodes left over feed each other, so there is a cycle. */
  lemma Verdict(succ: Edges, deg: seq<nat>, queue: seq<nat>)
    requires Counted(succ, deg, queue, Members(queue), 0, [])
    ensures |queue| == |succ| ==> Topological(succ, queue)
    ensures |queue| != |succ| ==> !Acyclic(succ)
  {
    hide Pending;
    QueueFits(succ, deg, queue);
    if |queue| != |succ| {
      BelowAll(|succ|);
      var left := set v | v in Below(|succ|) && v !in queue;
      forall v | v in left
        ensures Fed(succ, left, v)
      {
        LeftOver(succ, deg, queue, left, v);
      }
      var v :| 0 <= v < |succ| && v !in queue;
      assert v in left;
      CycleFrom(succ, left);
    }
  }

  lemma LeftOver(succ: Edges, deg: seq<nat>, queue: seq<nat>, left: set<nat>, v: nat)
    requires Counted(succ, deg, queue, Members(queue), 0, []) && v in left
    requires forall u :: u in left <==> 0 <= u < |succ| && u !in queue
    ensures Fed(succ, left, v)
  {
    hide Pending;
    assert deg[v] != 0;
    PendingZero(succ, Members(queue), 0, [], v);
    var u :| 0 <= u < |succ| && Waits(succ, Members(queue), 0, [], u, v);
    assert u !in queue;
  }
}
