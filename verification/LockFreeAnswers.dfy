/**
 Which answers the operations of the lock-free map give, that every call gets one, and what a call does that no
 other thread disturbs.
 */
module LockFreeAnswers {
  import opened Basics
  import opened SplitOrder
  import opened LockFreeList
  import opened LockFreeMap

  /** The answers an operation can give. */
  function Answers(op: Op): set<Outcome> {
    match op
    case Insert => {Inserted, AlreadyExists}
    case Put => {Inserted, Updated}
    case Get => {Found, NotFound}
    case Remove => {Removed, NotFound}
    case InitBucket => {}
    case Sweep => {}
  }

  /** An operation gives only its own answers, and its call ends with the answer. */
  lemma AnswerFits(s: State, a: Action)
    requires Inv(s) && Enabled(s, a) && Report(s, a).Some?
    ensures a.t in s.calls && Report(s, a).value in Answers(s.calls[a.t].op) && a.t !in Next(s, a).calls
  {
    hide So;
    hide Chain;
    hide RetiredOk;
    hide Absent;
    hide Clean;
    hide NoneBefore;
    if a.t in s.calls {
      assert CallOk(s.nodes, s.calls[a.t]);
    }
  }

  /** A call of insert, put, get or remove does not end without an answer. */
  lemma EndsWithAnswer(s: State, a: Action, t: Tid)
    requires Inv(s) && Enabled(s, a) && t in s.calls && t !in Next(s, a).calls && Answers(s.calls[t].op) != {}
    ensures a.t == t && Report(s, a).Some?
  {
    hide So;
    hide Chain;
    hide RetiredOk;
    hide Absent;
    hide Clean;
    hide NoneBefore;
    assert CallOk(s.nodes, s.calls[t]);
  }

  /** In every run every call of the four operations ends with exactly one answer, and with one of its own. */
  lemma EveryCallAnswered(run: seq<State>, actions: seq<Action>, i: nat, t: Tid)
    requires IsRun(run, actions) && i < |actions| && t in run[i].calls && Answers(run[i].calls[t].op) != {}
    ensures Enabled(run[i], actions[i])
    ensures t !in run[i + 1].calls <==> actions[i].t == t && Report(run[i], actions[i]).Some?
    ensures t !in run[i + 1].calls ==> Report(run[i], actions[i]).value in Answers(run[i].calls[t].op)
  {
    hide Inv;
    hide Answers;
    hide Report;
    hide Next;
    hide Enabled;
    RunInv(run, actions, i);
    assert Enabled(run[i], actions[i]) && run[i + 1] == Next(run[i], actions[i]);
    if t !in run[i + 1].calls {
      EndsWithAnswer(run[i], actions[i], t);
    }
    if Report(run[i], actions[i]).Some? {
      AnswerFits(run[i], actions[i]);
    }
  }

  /** A bucket that has been initialised is in its slot. */
  lemma BucketIsSet(s: State, a: Action, t: Tid)
    requires Inv(s) && Enabled(s, a) && t in s.calls && t !in Next(s, a).calls && s.calls[t].op == InitBucket
    ensures s.calls[t].key in Next(s, a).slots
  {
    hide So;
    hide Chain;
    hide RetiredOk;
    hide Absent;
    hide Clean;
    hide NoneBefore;
    assert CallOk(s.nodes, s.calls[t]);
  }

  // ---------- a call on its own ----------

  /** The thread takes these steps, and no other thread takes any. */
  ghost predicate Alone(s: State, t: Tid, actions: seq<Action>, z: State)
    decreases |actions|
  {
    if actions == [] then s == z
    else Enabled(s, actions[0]) && actions[0].t == t && Alone(Next(s, actions[0]), t, actions[1..], z)
  }

  lemma AloneNone(s: State, t: Tid)
    ensures Alone(s, t, [], s)
  {
  }

  lemma AloneCons(s: State, t: Tid, a: Action, rest: seq<Action>, z: State)
    requires Enabled(s, a) && a.t == t && Alone(Next(s, a), t, rest, z)
    ensures Alone(s, t, [a] + rest, z)
  {
    hide Enabled;
    hide Next;
    assert ([a] + rest)[1..] == rest;
  }

  /** The call is still running, on the same contents, and has learned nothing that was not so at s. */
  ghost predicate Steady(s: State, z: State, t: Tid) {
    && Inv(z) && t in s.calls && t in z.calls
    && z.calls[t].op == s.calls[t].op && z.calls[t].key == s.calls[t].key
    && Elements(z.nodes) == Elements(s.nodes)
    && (z.calls[t].seenAbsent ==> s.calls[t].seenAbsent || s.calls[t].key !in Elements(s.nodes))
  }

  lemma SteadyTrans(s: State, m: State, z: State, t: Tid)
    requires Steady(s, m, t) && Steady(m, z, t)
    ensures Steady(s, z, t)
  {
    hide Inv;
    hide Elements;
  }

  lemma NoAnswerYet(s: State, a: Action)
    requires Inv(s) && Enabled(s, a) && Progressed(s, a).Continue?
    ensures Report(s, a).None? || s.calls[a.t].key.Sentinel?
    ensures Report(s, a) !in {Some(Inserted), Some(Removed)}
  {
    hide So;
    hide Chain;
    hide RetiredOk;
    hide Absent;
    hide Matches;
    hide HeadOf;
    if a.t in s.calls {
      assert CallOk(s.nodes, s.calls[a.t]);
    }
  }

  /** A step of the call that does not end it. */
  lemma GoesOn(s: State, a: Action)
    requires Inv(s) && Enabled(s, a) && Progressed(s, a).Continue? && !a.Start?
    requires a.t in s.calls && s.calls[a.t].key.Regular?
    ensures Steady(s, Next(s, a), a.t) && Next(s, a).calls[a.t].pc == Progressed(s, a).call.pc
    ensures Next(s, a).nodes == NextNodes(s, a)
  {
    hide Inv;
    hide Enabled;
    hide Progressed;
    hide NextNodes;
    hide Elements;
    hide Report;
    hide Absent;
    var s', t := Next(s, a), a.t;
    StepInv(s, a);
    NoAnswerYet(s, a);
    ElementsStep(s, a);
    ProgressKeeps(s, a);
    CallStep(s, a, t);
    ElementsAbsent(s'.nodes, s.calls[t].key);
  }

  /** The last step of a call. */
  ghost predicate Last(z: State, a: Action, t: Tid) {
    Enabled(z, a) && a.t == t && t in z.calls && Progressed(z, a).Leave?
  }

  /** How far a search still has to go. */
  ghost function Ahead(nodes: Nodes, curr: Option<Id>): nat
    requires curr.Some? ==> curr.value in nodes
  {
    if curr.None? then 0 else |Behind(nodes, curr.value)| + 1
  }

  lemma NextAhead(nodes: Nodes, x: Id)
    requires Chain(nodes) && x in nodes
    ensures nodes[x].next.Some? ==> nodes[x].next.value in nodes
    ensures Ahead(nodes, nodes[x].next) < Ahead(nodes, Some(x))
  {
    hide So;
    hide Chain;
    hide Walk;
    WalkStep(nodes, x);
    if nodes[x].next.Some? {
      FewerBehind(nodes, x, nodes[x].next.value);
    }
  }

  /** The search stands on an unmarked node and has read its link as it is. */
  predicate Fresh(s: State, t: Tid) {
    && t in s.calls && s.calls[t].pc.AtNode?
    && var c := s.calls[t].pc; c.pred in s.nodes && !s.nodes[c.pred].marked && s.nodes[c.pred].next == c.curr
  }

  lemma CallHere(s: State, t: Tid)
    requires Inv(s) && t in s.calls
    ensures CallOk(s.nodes, s.calls[t]) && Chain(s.nodes)
  {
  }

  lemma LinkCanHappen(s: State, t: Tid) returns (a: Action)
    requires t in s.calls && s.calls[t].pc.Missed? && s.calls[t].op in {Insert, Put, InitBucket}
    requires var c := s.calls[t].pc; c.pred in s.nodes && !s.nodes[c.pred].marked && s.nodes[c.pred].next == c.curr
    ensures Enabled(s, a) && a.t == t && a.LinkCas?
  {
    hide Enabled;
    LinkNeverBlocked(s, t);
    var id, rank :| Enabled(s, LinkCas(t, id, rank));
    a := LinkCas(t, id, rank);
  }

  /** A search that has just looked at a node and found what it looked for, or that it is not there. */
  lemma Decided(s: State, t: Tid) returns (a: Action)
    requires Inv(s) && t in s.calls && s.calls[t].key.Regular?
    requires s.calls[t].pc.Missed? || s.calls[t].pc.Victim? || s.calls[t].pc.Updating?
    requires var c := s.calls[t].pc;
      match c
      case Missed(pred, curr) => pred in s.nodes && !s.nodes[pred].marked && s.nodes[pred].next == curr
      case Victim(v) => v in s.nodes && !s.nodes[v].marked
      case Updating(u) => u in s.nodes && !s.nodes[u].marked
    ensures Last(s, a, t)
  {
    hide So;
    hide Chain;
    hide RetiredOk;
    hide Absent;
    hide Clean;
    hide NoneBefore;
    assert CallOk(s.nodes, s.calls[t]);
    match s.calls[t].pc {
      case Missed(_, _) =>
        if s.calls[t].op in {Remove, Sweep} {
          a := Return(t);
        } else {
          a := LinkCanHappen(s, t);
        }
      case Victim(_) => a := MarkCas(t);
      case Updating(_) => a := Confirm(t);
    }
  }

  /** What looking at the next node leads to. */
  lemma LooksAt(s: State, t: Tid)
    requires Inv(s) && t in s.calls && s.calls[t].pc.AtNode? && s.calls[t].key.Regular?
    ensures Enabled(s, LoadNode(t)) && NextNodes(s, LoadNode(t)) == s.nodes
    ensures var p, c := Progressed(s, LoadNode(t)), s.calls[t].pc;
      p.Continue? ==>
        match p.call.pc
        case Missed(pred, curr) => pred == c.pred && curr == c.curr
        case Victim(v) => v in s.nodes && !s.nodes[v].marked
        case Updating(u) => u in s.nodes && !s.nodes[u].marked
        case Unlinking(pred, dead) => pred == c.pred && c.curr == Some(dead) && dead in s.nodes
        case AtNode(pred, curr) =>
          c.curr == Some(pred) && pred in s.nodes && !s.nodes[pred].marked && s.nodes[pred].next == curr
        case _ => false
  {
    hide So;
    hide Chain;
    hide RetiredOk;
    hide Absent;
    hide Clean;
    hide NoneBefore;
    hide Matches;
    assert CallOk(s.nodes, s.calls[t]);
  }

  lemma UnlinksAlone(s: State, t: Tid)
    requires Inv(s) && t in s.calls && s.calls[t].pc.Unlinking? && s.calls[t].key.Regular?
    requires var c := s.calls[t].pc;
      c.pred in s.nodes && !s.nodes[c.pred].marked && s.nodes[c.pred].next == Some(c.dead) && c.dead in s.nodes
    ensures Enabled(s, UnlinkCas(t)) && Progressed(s, UnlinkCas(t)).Continue?
    ensures var c, nodes := s.calls[t].pc, NextNodes(s, UnlinkCas(t));
      && Progressed(s, UnlinkCas(t)).call.pc == AtNode(c.pred, s.nodes[c.dead].next)
      && c.pred in nodes && !nodes[c.pred].marked && nodes[c.pred].next == s.nodes[c.dead].next
      && (s.nodes[c.dead].next.Some? ==> s.nodes[c.dead].next.value in nodes)
      && Ahead(nodes, s.nodes[c.dead].next) < Ahead(s.nodes, Some(c.dead))
  {
    CallHere(s, t);
    hide *;
    var c := s.calls[t].pc;
    UnlinkCasMeans(s, t);
    UnlinkPred(s.nodes, c.pred, c.dead);
    NextAhead(s.nodes, c.dead);
    UnlinkAhead(s.nodes, c.pred, c.dead, s.nodes[c.dead].next);
  }

  lemma UnlinkCasMeans(s: State, t: Tid)
    requires t in s.calls && s.calls[t].pc.Unlinking?
    requires var c := s.calls[t].pc;
      c.pred in s.nodes && !s.nodes[c.pred].marked && s.nodes[c.pred].next == Some(c.dead) && c.dead in s.nodes
    ensures Enabled(s, UnlinkCas(t)) && Progressed(s, UnlinkCas(t)).Continue?
    ensures var c := s.calls[t].pc;
      && Progressed(s, UnlinkCas(t)).call.pc == AtNode(c.pred, s.nodes[c.dead].next)
      && NextNodes(s, UnlinkCas(t)) == Unlink(s.nodes, c.pred, c.dead)
  {
    hide Unlink;
  }

  lemma UnlinkAhead(nodes: Nodes, p: Id, c: Id, x: Option<Id>)
    requires p in nodes && c in nodes && (x.Some? ==> x.value in nodes)
    ensures (x.Some? ==> x.value in Unlink(nodes, p, c)) && Ahead(Unlink(nodes, p, c), x) == Ahead(nodes, x)
  {
    hide Unlink;
    if x.Some? {
      UnlinkBehind(nodes, p, c, x.value);
    }
  }

  lemma UnlinkBehind(nodes: Nodes, p: Id, c: Id, x: Id)
    requires p in nodes && c in nodes && x in nodes
    ensures x in Unlink(nodes, p, c) && Behind(Unlink(nodes, p, c), x) == Behind(nodes, x)
  {
  }

  /** The call can be finished without the other threads: steps to its last step, and that step. */
  ghost predicate Ends(s: State, t: Tid, actions: seq<Action>, z: State, a: Action) {
    Alone(s, t, actions, z) && Steady(s, z, t) && Last(z, a, t)
  }

  lemma EndsNow(s: State, t: Tid, a: Action)
    requires Inv(s) && Last(s, a, t)
    ensures Ends(s, t, [], s, a)
  {
    hide Inv;
    hide Last;
    hide Elements;
    assert t in s.calls by { LastCall(s, a, t); }
    AloneNone(s, t);
  }

  lemma LastCall(s: State, a: Action, t: Tid)
    requires Last(s, a, t)
    ensures t in s.calls
  {
  }

  /** One step more in front. */
  lemma EndsAfter(s: State, t: Tid, b: Action, actions: seq<Action>, z: State, a: Action)
    requires Enabled(s, b) && b.t == t && Steady(s, Next(s, b), t) && Ends(Next(s, b), t, actions, z, a)
    ensures Ends(s, t, [b] + actions, z, a)
  {
    hide Last;
    hide Steady;
    hide Next;
    hide Enabled;
    AloneCons(s, t, b, actions, z);
    SteadyTrans(s, Next(s, b), z, t);
  }

  /** A search that stands on an unmarked node comes to its end. */
  lemma {:induction false} SearchEnds(s: State, t: Tid) returns (actions: seq<Action>, z: State, a: Action)
    requires Inv(s) && Fresh(s, t) && s.calls[t].key.Regular?
    requires s.calls[t].pc.curr.Some? ==> s.calls[t].pc.curr.value in s.nodes
    ensures Ends(s, t, actions, z, a)
    decreases Ahead(s.nodes, s.calls[t].pc.curr)
  {
    hide Inv;
    hide Enabled;
    hide Next;
    hide Progressed;
    hide NextNodes;
    hide Ahead;
    hide Ends;
    hide Steady;
    var c, b := s.calls[t].pc, LoadNode(t);
    LooksAt(s, t);
    if Progressed(s, b).Leave? {
      EndsNow(s, t, b);
      return [], s, b;
    }
    GoesOn(s, b);
    var s1 := Next(s, b);
    SteadyMeans(s, s1, t);
    match s1.calls[t].pc {
      case AtNode(pred, curr) =>
        ChainHere(s);
        NextAhead(s.nodes, pred);
        actions, z, a := SearchEnds(s1, t);
      case Unlinking(pred, dead) =>
        UnlinksAlone(s1, t);
        GoesOn(s1, UnlinkCas(t));
        var s2 := Next(s1, UnlinkCas(t));
        SteadyMeans(s1, s2, t);
        actions, z, a := SearchEnds(s2, t);
        EndsAfter(s1, t, UnlinkCas(t), actions, z, a);
        actions := [UnlinkCas(t)] + actions;
      case _ =>
        a := Decided(s1, t);
        EndsNow(s1, t, a);
        actions, z := [], s1;
    }
    EndsAfter(s, t, b, actions, z, a);
    actions := [b] + actions;
  }

  lemma SteadyMeans(s: State, z: State, t: Tid)
    requires Steady(s, z, t)
    ensures Inv(z) && t in s.calls && t in z.calls && z.calls[t].key == s.calls[t].key && z.calls[t].op == s.calls[t].op
  {
  }

  lemma ChainHere(s: State)
    requires Inv(s)
    ensures Chain(s.nodes)
  {
  }

  lemma BeginsWithHead(s: State, t: Tid)
    requires Inv(s) && t in s.calls && s.calls[t].pc.Begin? && s.calls[t].key.Regular?
    ensures Enabled(s, LoadHead(t)) && Progressed(s, LoadHead(t)).Continue? && NextNodes(s, LoadHead(t)) == s.nodes
    ensures var pc := Progressed(s, LoadHead(t)).call.pc;
      && pc.AtNode? && pc.pred in s.nodes && !s.nodes[pc.pred].marked && s.nodes[pc.pred].next == pc.curr
      && (pc.curr.Some? ==> pc.curr.value in s.nodes)
  {
    CallHere(s, t);
    hide Inv;
    hide So;
    hide Chain;
    ChainKeys(s.nodes, s.calls[t].head);
  }

  lemma StartEnds(s: State, t: Tid) returns (actions: seq<Action>, z: State, a: Action)
    requires Inv(s) && t in s.calls && s.calls[t].pc.Begin? && s.calls[t].key.Regular?
    ensures Ends(s, t, actions, z, a)
  {
    hide Inv;
    hide Enabled;
    hide Next;
    hide Progressed;
    hide NextNodes;
    hide Ends;
    hide Steady;
    var b := LoadHead(t);
    BeginsWithHead(s, t);
    GoesOn(s, b);
    var s1 := Next(s, b);
    SteadyMeans(s, s1, t);
    actions, z, a := SearchEnds(s1, t);
    EndsAfter(s, t, b, actions, z, a);
    actions := [b] + actions;
  }

  lemma RetryMeans(s: State, b: Action)
    requires Enabled(s, b) && (b.Retry? || (b.Confirm? && s.nodes[s.calls[b.t].pc.updated].marked))
    ensures b.t in s.calls && Progressed(s, b).Continue? && Progressed(s, b).call.pc.Begin?
    ensures NextNodes(s, b) == s.nodes
  {
  }

  /** A step that starts the search anew. */
  lemma AgainEnds(s: State, b: Action) returns (actions: seq<Action>, z: State, a: Action)
    requires Inv(s) && Enabled(s, b) && b.t in s.calls && s.calls[b.t].key.Regular?
    requires b.Retry? || (b.Confirm? && s.nodes[s.calls[b.t].pc.updated].marked)
    ensures Ends(s, b.t, actions, z, a)
  {
    RetryMeans(s, b);
    hide Inv;
    hide Enabled;
    hide Next;
    hide Progressed;
    hide NextNodes;
    hide Ends;
    hide Steady;
    GoesOn(s, b);
    var s1 := Next(s, b);
    SteadyMeans(s, s1, b.t);
    actions, z, a := StartEnds(s1, b.t);
    EndsAfter(s, b.t, b, actions, z, a);
    actions := [b] + actions;
  }

  /** Where the call may be, by its operation, and that the nodes it names are there. */
  lemma PcMeans(nodes: Nodes, c: Call)
    requires CallOk(nodes, c)
    ensures c.pc.Visiting? || c.pc.AtNode? || c.pc.Missed? ==> Somewhere(nodes, c.pc.curr)
    ensures c.op != InitBucket ==> c.key.Regular? && !c.pc.Sentry?
    ensures c.pc.Victim? ==> c.op == Remove && c.pc.victim in nodes
    ensures c.pc.Updating? ==> c.op == Put && c.pc.updated in nodes
    ensures c.op == Get <==> c.pc.Visiting?
  {
    hide So;
    hide Clean;
    hide NoneBefore;
    hide Absent;
    hide Passed;
    hide Beyond;
  }

  lemma VisitMeans(s: State, t: Tid)
    requires t in s.calls && s.calls[t].pc.Visiting? && s.calls[t].pc.curr.Some? && s.calls[t].pc.curr.value in s.nodes
    ensures Enabled(s, Visit(t)) && NextNodes(s, Visit(t)) == s.nodes
    ensures Progressed(s, Visit(t)).Continue? ==>
      Progressed(s, Visit(t)).call.pc == Visiting(s.nodes[s.calls[t].pc.curr.value].next)
  {
    hide So;
    hide Matches;
  }

  lemma EndOfList(s: State, t: Tid)
    requires t in s.calls && s.calls[t].pc == Visiting(None)
    ensures Last(s, Return(t), t)
  {
  }

  /** A lookup walks the list to its end. */
  lemma {:induction false} LookupEnds(s: State, t: Tid) returns (actions: seq<Action>, z: State, a: Action)
    requires Inv(s) && t in s.calls && s.calls[t].pc.Visiting? && s.calls[t].key.Regular?
    requires s.calls[t].pc.curr.Some? ==> s.calls[t].pc.curr.value in s.nodes
    ensures Ends(s, t, actions, z, a)
    decreases Ahead(s.nodes, s.calls[t].pc.curr)
  {
    hide Inv;
    hide Last;
    hide Enabled;
    hide Next;
    hide Progressed;
    hide NextNodes;
    hide Ahead;
    hide Ends;
    hide Steady;
    if s.calls[t].pc.curr.None? {
      a := Return(t);
      EndOfList(s, t);
      EndsNow(s, t, a);
      return [], s, a;
    }
    var b, x := Visit(t), s.calls[t].pc.curr.value;
    VisitMeans(s, t);
    if Progressed(s, b).Leave? {
      LeavesLast(s, b, t);
      EndsNow(s, t, b);
      return [], s, b;
    }
    GoesOn(s, b);
    var s1 := Next(s, b);
    SteadyMeans(s, s1, t);
    ChainHere(s);
    NextAhead(s.nodes, x);
    actions, z, a := LookupEnds(s1, t);
    EndsAfter(s, t, b, actions, z, a);
    actions := [b] + actions;
  }

  /** What a call of the four operations can do next. */
  lemma NextMove(s: State, t: Tid)
    requires Inv(s) && t in s.calls && Answers(s.calls[t].op) != {}
    ensures s.calls[t].key.Regular? && !s.calls[t].pc.Sentry?
    ensures s.calls[t].pc.Visiting? && s.calls[t].pc.curr.Some? ==> s.calls[t].pc.curr.value in s.nodes
    ensures s.calls[t].pc.Unlinking? ==> Enabled(s, Retry(t))
    ensures s.calls[t].pc.Missed? ==> Last(s, Return(t), t) || Enabled(s, Retry(t))
    ensures s.calls[t].pc.Victim? ==> Last(s, MarkCas(t), t) || Last(s, Return(t), t)
    ensures s.calls[t].pc.Updating? ==>
      Enabled(s, Confirm(t)) && (Last(s, Confirm(t), t) || s.nodes[s.calls[t].pc.updated].marked)
  {
    CallHere(s, t);
    hide Inv;
    hide Last;
    hide CallOk;
    hide Enabled;
    PcMeans(s.nodes, s.calls[t]);
    match s.calls[t].pc
    case Unlinking(_, _) => MayRetry(s, t);
    case Missed(_, _) => MayRetry(s, t);
    case Victim(_) => VictimMoves(s, t);
    case Updating(_) => UpdatingMoves(s, t);
    case _ =>
  }

  lemma MayRetry(s: State, t: Tid)
    requires t in s.calls && s.calls[t].op in {Insert, Put, Remove}
    requires s.calls[t].pc.Unlinking? || s.calls[t].pc.Missed?
    ensures s.calls[t].pc.Unlinking? ==> Enabled(s, Retry(t))
    ensures s.calls[t].pc.Missed? ==> Last(s, Return(t), t) || Enabled(s, Retry(t))
  {
  }

  lemma VictimMoves(s: State, t: Tid)
    requires t in s.calls && s.calls[t].pc.Victim? && s.calls[t].pc.victim in s.nodes
    ensures Last(s, MarkCas(t), t) || Last(s, Return(t), t)
  {
  }

  lemma UpdatingMoves(s: State, t: Tid)
    requires t in s.calls && s.calls[t].pc.Updating? && s.calls[t].pc.updated in s.nodes
    ensures Enabled(s, Confirm(t)) && (Last(s, Confirm(t), t) || s.nodes[s.calls[t].pc.updated].marked)
  {
  }

  /** From every reachable state every call can be finished by its own thread, whatever the others have begun. */
  lemma CallEnds(s: State, t: Tid) returns (actions: seq<Action>, z: State, a: Action)
    requires Inv(s) && t in s.calls && Answers(s.calls[t].op) != {}
    ensures Ends(s, t, actions, z, a)
  {
    hide Inv;
    hide Enabled;
    hide Next;
    hide Progressed;
    hide NextNodes;
    hide Ends;
    hide Steady;
    hide Last;
    hide Answers;
    NextMove(s, t);
    actions, z, a := [], s, Return(t);
    match s.calls[t].pc {
      case Begin => actions, z, a := StartEnds(s, t);
      case AtNode(_, _) => actions, z, a := StepThenEnds(s, t);
      case Unlinking(_, _) => actions, z, a := AgainEnds(s, Retry(t));
      case Missed(_, _) =>
        if Last(s, a, t) { EndsNow(s, t, a); } else { actions, z, a := AgainEnds(s, Retry(t)); }
      case Victim(_) =>
        if !Last(s, a, t) { a := MarkCas(t); }
        EndsNow(s, t, a);
      case Updating(_) =>
        a := Confirm(t);
        if Last(s, a, t) { EndsNow(s, t, a); } else { actions, z, a := AgainEnds(s, a); }
      case Visiting(_) => actions, z, a := LookupEnds(s, t);
    }
  }

  /** After one look the search stands on an unmarked node, or starts anew, or is decided. */
  lemma StepThenEnds(s: State, t: Tid) returns (actions: seq<Action>, z: State, a: Action)
    requires Inv(s) && t in s.calls && s.calls[t].pc.AtNode? && Answers(s.calls[t].op) != {} && s.calls[t].key.Regular?
    ensures Ends(s, t, actions, z, a)
  {
    hide Inv;
    hide Enabled;
    hide Next;
    hide Progressed;
    hide NextNodes;
    hide Ends;
    hide Steady;
    hide Last;
    hide Answers;
    var b := LoadNode(t);
    LooksAt(s, t);
    if Progressed(s, b).Leave? {
      assert Last(s, b, t) by { LeavesLast(s, b, t); }
      EndsNow(s, t, b);
      return [], s, b;
    }
    GoesOn(s, b);
    var s1 := Next(s, b);
    SteadyMeans(s, s1, t);
    NextMove(s1, t);
    actions, z, a := [], s1, Return(t);
    match s1.calls[t].pc {
      case AtNode(pred, _) =>
        ChainHere(s);
        ChainKeys(s.nodes, pred);
        actions, z, a := SearchEnds(s1, t);
      case Unlinking(_, _) => actions, z, a := AgainEnds(s1, Retry(t));
      case Missed(_, _) =>
        if Last(s1, a, t) { EndsNow(s1, t, a); } else { actions, z, a := AgainEnds(s1, Retry(t)); }
      case Victim(_) =>
        if !Last(s1, a, t) { a := MarkCas(t); }
        EndsNow(s1, t, a);
      case Updating(_) =>
        a := Confirm(t);
        if Last(s1, a, t) { EndsNow(s1, t, a); } else { actions, z, a := AgainEnds(s1, a); }
    }
    EndsAfter(s, t, b, actions, z, a);
    actions := [b] + actions;
  }

  lemma LeavesLast(s: State, a: Action, t: Tid)
    requires Enabled(s, a) && a.t == t && t in s.calls && Progressed(s, a).Leave?
    ensures Last(s, a, t)
  {
  }

  /** What an operation answers on a plain set, and what it leaves. */
  function Plain(op: Op, present: bool): Outcome
    requires Answers(op) != {}
  {
    match op
    case Insert => if present then AlreadyExists else Inserted
    case Put => if present then Updated else Inserted
    case Get => if present then Found else NotFound
    case Remove => if present then Removed else NotFound
  }

  function PlainAfter(op: Op, elements: set<Key>, key: Key): set<Key> {
    match op
    case Insert => elements + {key}
    case Put => elements + {key}
    case Remove => elements - {key}
    case _ => elements
  }

  lemma LastAnswers(s: State, t: Tid, z: State, a: Action)
    requires Inv(s) && t in s.calls && Answers(s.calls[t].op) != {} && Steady(s, z, t) && Last(z, a, t)
    requires s.calls[t].seenAbsent ==> s.calls[t].key !in Elements(s.nodes)
    ensures Enabled(z, a) && t !in Next(z, a).calls
    ensures Report(z, a) == Some(Plain(s.calls[t].op, s.calls[t].key in Elements(s.nodes)))
    ensures Elements(Next(z, a).nodes) == PlainAfter(s.calls[t].op, Elements(s.nodes), s.calls[t].key)
  {
    hide Inv;
    hide Elements;
    hide Enabled;
    hide Report;
    hide NextNodes;
    hide Absent;
    assert t !in Next(z, a).calls;
    hide Next;
    hide Progressed;
    EndsWithAnswer(z, a, t);
    AnswerFits(z, a);
    AnsweringCall(z, a);
    ElementsStep(z, a);
    ElementsAbsent(z.nodes, z.calls[t].key);
    if Report(z, a) == Some(NotFound) {
      AbsentAnswers(z, a);
    } else if Report(z, a) !in {Some(Inserted), Some(Removed)} {
      PresentAnswers(z, a);
    }
  }

  /**
   A call that starts in any reachable state and is not disturbed answers, and changes the contents, as the operation
   does on a plain set, whatever other threads have left half done.
   */
  lemma UndisturbedCall(s: State, b: Action) returns (actions: seq<Action>, z: State, a: Action)
    requires Inv(s) && Enabled(s, b) && b.Start? && Answers(b.op) != {}
    ensures Alone(Next(s, b), b.t, actions, z) && Enabled(z, a) && a.t == b.t && b.t !in Next(z, a).calls
    ensures Report(z, a) == Some(Plain(b.op, b.key in Elements(s.nodes)))
    ensures Elements(Next(z, a).nodes) == PlainAfter(b.op, Elements(s.nodes), b.key)
  {
    hide Inv;
    hide Elements;
    hide Enabled;
    hide Report;
    hide Absent;
    hide Steady;
    hide Last;
    var s1, t := Next(s, b), b.t;
    StartMeans(s, b);
    assert t in s1.calls && s1.nodes == s.nodes;
    hide Next;
    StepInv(s, b);
    CallStep(s, b, t);
    NextMove(s1, t);
    ElementsAbsent(s.nodes, b.key);
    actions, z, a := CallEnds(s1, t);
    LastAnswers(s1, t, z, a);
    LastStep(z, a, t);
  }

  lemma StartMeans(s: State, b: Action)
    requires Enabled(s, b) && b.Start?
    ensures Progressed(s, b).Continue? && NextNodes(s, b) == s.nodes
  {
  }

  lemma LastStep(z: State, a: Action, t: Tid)
    requires Last(z, a, t)
    ensures a.t == t
  {
  }
}
