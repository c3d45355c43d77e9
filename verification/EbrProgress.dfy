/**
 What the operations of epoch-based reclamation get done: when an advance succeeds and what it frees, what a handle
 announces and hands over, and how far `sync` empties the pool of orphans.
 */
module EbrProgress {
  import opened Ebr

  /** The actions lead from one state to the other. */
  ghost predicate Leads(s: State, actions: seq<Action>, e: State)
    decreases |actions|
  {
    if actions == [] then s == e
    else Shaped(s) && Enabled(s, actions[0]) && Leads(Apply(s, actions[0]), actions[1..], e)
  }

  lemma LeadsOne(s: State, a: Action)
    requires Shaped(s) && Enabled(s, a)
    ensures Leads(s, [a], Apply(s, a))
  {
    hide Apply;
    hide Enabled;
    assert Leads(Apply(s, a), [], Apply(s, a));
    assert [a][1..] == [];
  }

  lemma {:induction false} LeadsJoin(s: State, first: seq<Action>, m: State, second: seq<Action>, e: State)
    requires Leads(s, first, m) && Leads(m, second, e)
    ensures Leads(s, first + second, e)
    decreases |first|
  {
    hide Apply;
    hide Enabled;
    if first == [] {
      assert first + second == second;
    } else {
      assert (first + second)[1..] == first[1..] + second;
      LeadsJoin(Apply(s, first[0]), first[1..], m, second, e);
    }
  }

  lemma LeadsMore(s: State, first: seq<Action>, m: State, a: Action)
    requires Leads(s, first, m) && Shaped(m) && Enabled(m, a)
    ensures Leads(s, first + [a], Apply(m, a))
  {
    hide Apply;
    hide Enabled;
    hide Leads;
    LeadsOne(m, a);
    LeadsJoin(s, first, m, [a], Apply(m, a));
  }

  // -------------------------------------------------------------------------
  // Why an advance ends
  // -------------------------------------------------------------------------

  /** A handle that keeps the epoch from moving on from g. */
  predicate Lagging(v: Handle, g: nat) {
    v.registered && v.active && v.announced < g
  }

  /** A call ends for one of three reasons: a lagging handle, an epoch that has moved, or its flush is done. */
  lemma CallEnds(s: State, a: Action, k: nat)
    requires Inv(s) && Enabled(s, a) && k < |s.calls| && !s.calls[k].Finished?
    requires k < |Apply(s, a).calls| && Apply(s, a).calls[k].Finished?
    ensures a == ScanActive(k) || a == AdvanceCas(k) || a == OrphanAttach(k)
    ensures a == ScanActive(k) ==> Lagging(s.handles[s.calls[k].cur - 1], s.calls[k].g)
    ensures a == AdvanceCas(k) ==> s.epoch > s.calls[k].g
    ensures a == OrphanAttach(k) ==> s.calls[k].slot == s.calls[k].last
  {
    hide Inv;
    hide Enabled;
    hide Apply;
    InvCall(s, k);
    if OnCall(a) && a.k == k {
      OwnCallStep(s, a);
      if a.ScanActive? && s.handles[s.calls[k].cur - 1].active {
        ActiveMeans(s, s.calls[k].cur - 1);
      }
    } else {
      OtherCalls(s, a, k);
    }
  }

  lemma InvCall(s: State, k: nat)
    requires Inv(s) && k < |s.calls|
    ensures Shaped(s) && (s.calls[k].Splitting? ==> s.calls[k].slot <= s.calls[k].last)
    ensures s.calls[k].AdvanceLoaded? || s.calls[k].Scanning? || s.calls[k].SawRegistered? ==> s.calls[k].g <= s.epoch
  {
    assert CallOk(s, s.calls[k]);
  }

  lemma OtherCalls(s: State, a: Action, k: nat)
    requires Shaped(s) && Enabled(s, a) && k < |s.calls| && !(OnCall(a) && a.k == k)
    ensures k < |Apply(s, a).calls| && Apply(s, a).calls[k] == s.calls[k]
  {
  }

  /** What a step of a call makes of it. */
  lemma OwnCallStep(s: State, a: Action)
    requires Shaped(s) && Enabled(s, a) && OnCall(a)
    ensures a.k < |s.calls| && |Apply(s, a).calls| == |s.calls|
    ensures var c, c' := s.calls[a.k], Apply(s, a).calls[a.k];
      match a
      case AdvanceHead(_) => c.AdvanceLoaded? && c' == Scanning(c.g, |s.handles|)
      case ScanRegistered(_) => c.Scanning? && (c' == SawRegistered(c.g, c.cur) || c' == Scanning(c.g, c.cur - 1))
      case ScanActive(_) =>
        && c.SawRegistered? && 0 < c.cur <= |s.handles|
        && var v := s.handles[c.cur - 1];
        c' == if v.active && v.announced < c.g then Finished else Scanning(c.g, c.cur - 1)
      case AdvanceCas(_) => c.Scanning? && (c'.Finished? <==> s.epoch != c.g) && (!c'.Finished? ==> c'.Flush?)
      case OrphanAttach(_) => c.Splitting? && (c'.Finished? <==> c.slot >= c.last)
      case SyncDone(_) => c.SyncWaiting? && c'.Flush?
      case OrphanDetach(_) => c.Flush? && c'.Splitting?
      case OrphanSplit(_) => c.Splitting? && c'.Splitting?
  {
  }

  lemma CasStep(s: State, k: nat)
    requires Shaped(s) && Enabled(s, AdvanceCas(k)) && s.epoch == s.calls[k].g
    ensures var g, c, s' := s.epoch, Apply(s, AdvanceCas(k)).calls[k], Apply(s, AdvanceCas(k));
      && s'.epoch == g + 1 && c.Flush? && c.slot == c.last < 3 && (c.slot + 1) % 3 == g % 3
      && c.limit == if g == 0 then 0 else g - 1
  {
  }

  lemma CasMissed(s: State, k: nat)
    requires Shaped(s) && Enabled(s, AdvanceCas(k)) && s.epoch != s.calls[k].g
    ensures Apply(s, AdvanceCas(k)).epoch == s.epoch
  {
  }

  predicate InScan(c: Call, g: nat) {
    (c.AdvanceLoaded? || c.Scanning? || c.SawRegistered?) && c.g == g
  }

  /** At step m the scan of call k met a handle that lags behind g. */
  ghost predicate MetLagging(states: seq<State>, actions: seq<Action>, k: nat, g: nat, m: nat)
    requires |states| == |actions| + 1
  {
    && m < |actions| && actions[m] == ScanActive(k) && Enabled(states[m], actions[m])
    && Lagging(states[m].handles[states[m].calls[k].cur - 1], g)
  }

  /** At step m call k found that the epoch had moved on from g. */
  ghost predicate Overtaken(states: seq<State>, actions: seq<Action>, k: nat, g: nat, m: nat)
    requires |states| == |actions| + 1
  {
    m < |actions| && actions[m] == AdvanceCas(k) && states[m].epoch > g && states[m + 1].epoch == states[m].epoch
  }

  /** At step m call k moved the epoch on from g, and turned to the orphans that became safe. */
  ghost predicate Raised(states: seq<State>, actions: seq<Action>, k: nat, g: nat, m: nat)
    requires |states| == |actions| + 1
  {
    && m < |actions| && actions[m] == AdvanceCas(k) && states[m].epoch == g && states[m + 1].epoch == g + 1
    && k < |states[m + 1].calls| && var c := states[m + 1].calls[k];
    c.Flush? && c.slot == c.last < 3 && (c.slot + 1) % 3 == g % 3 && c.limit == if g == 0 then 0 else g - 1
  }

  ghost predicate Settled(states: seq<State>, actions: seq<Action>, k: nat, g: nat, m: nat)
    requires |states| == |actions| + 1
  {
    MetLagging(states, actions, k, g, m) || Overtaken(states, actions, k, g, m) || Raised(states, actions, k, g, m)
  }

  lemma ScanStep(s: State, a: Action, k: nat, g: nat)
    requires Inv(s) && Enabled(s, a) && k < |s.calls| && InScan(s.calls[k], g)
    ensures k < |Apply(s, a).calls|
    ensures
      || InScan(Apply(s, a).calls[k], g)
      || (a == ScanActive(k) && Lagging(s.handles[s.calls[k].cur - 1], g))
      || (a == AdvanceCas(k) && s.epoch > g && Apply(s, a).epoch == s.epoch)
      || (a == AdvanceCas(k) && s.epoch == g && Apply(s, a).epoch == g + 1 && Apply(s, a).calls[k].Flush? &&
          var c := Apply(s, a).calls[k];
          c.slot == c.last < 3 && (c.slot + 1) % 3 == g % 3 && c.limit == if g == 0 then 0 else g - 1)
  {
    hide Inv;
    hide Enabled;
    hide Apply;
    InvCall(s, k);
    if OnCall(a) && a.k == k {
      OwnCallStep(s, a);
      if a.ScanActive? && s.handles[s.calls[k].cur - 1].active {
        ActiveMeans(s, s.calls[k].cur - 1);
      }
      if a.AdvanceCas? {
        if s.epoch == g {
          CasStep(s, k);
        } else {
          CasMissed(s, k);
        }
      }
    } else {
      OtherCalls(s, a, k);
    }
  }

  /** The fate of an advance that read epoch g at step i. */
  lemma {:induction false} AdvanceTrace(states: seq<State>, actions: seq<Action>, i: nat, j: nat, k: nat)
      returns (m: nat)
    requires IsRun(states, actions) && i < j < |states| && actions[i] == AdvanceStart && k == |states[i].calls|
    ensures k < |states[j].calls|
    ensures InScan(states[j].calls[k], states[i].epoch) ||
      (i < m < j && Settled(states, actions, k, states[i].epoch, m))
    decreases j
  {
    hide Inv;
    hide Apply;
    hide Enabled;
    hide Lagging;
    var s, a, g := states[j - 1], actions[j - 1], states[i].epoch;
    assert Enabled(s, a) && Shaped(s) && states[j - 1 + 1] == Apply(s, a);
    m := 0;
    if i == j - 1 {
      StartLoads(s);
      return;
    }
    m := AdvanceTrace(states, actions, i, j - 1, k);
    RunInv(states, actions, j - 1);
    CallsStay(s, a);
    if InScan(s.calls[k], g) {
      ScanStep(s, a, k, g);
      if !InScan(states[j].calls[k], g) {
        m := j - 1;
      }
    }
  }

  lemma StartLoads(s: State)
    requires Shaped(s)
    ensures Apply(s, AdvanceStart).calls == s.calls + [AdvanceLoaded(s.epoch)]
  {
  }

  lemma CallsStay(s: State, a: Action)
    requires Shaped(s) && Enabled(s, a)
    ensures |s.calls| <= |Apply(s, a).calls|
  {
  }

  /**
   In every run, an advance that has ended met a lagging handle in its scan, found the epoch moved by another call,
   or moved it itself.
   */
  lemma AdvanceOutcome(states: seq<State>, actions: seq<Action>, i: nat, j: nat, k: nat) returns (m: nat)
    requires IsRun(states, actions) && i < j < |states| && actions[i] == AdvanceStart && k == |states[i].calls|
    requires k < |states[j].calls| && states[j].calls[k].Finished?
    ensures i < m < j && Settled(states, actions, k, states[i].epoch, m)
  {
    hide IsRun;
    hide Settled;
    m := AdvanceTrace(states, actions, i, j, k);
  }

  // -------------------------------------------------------------------------
  // What a flush frees
  // -------------------------------------------------------------------------

  ghost predicate WasFreed(s: State, n: Node) {
    exists f :: f in s.freed && f.ptr == n.ptr && f.retiredAt == n.epoch
  }

  /** Where a node of the slot that call k took is now. */
  ghost predicate Handled(s: State, k: nat, slot: nat, limit: nat, n: Node) {
    && k < |s.calls| && s.calls[k].Splitting? && s.calls[k].slot == slot && s.calls[k].limit == limit
    && if n.epoch <= limit then n in s.calls[k].todo || WasFreed(s, n) else n in s.calls[k].todo || n in s.calls[k].keep
  }

  lemma FreedStays(s: State, a: Action, n: Node)
    requires Shaped(s) && Enabled(s, a) && WasFreed(s, n)
    ensures WasFreed(Apply(s, a), n)
  {
    var f :| f in s.freed && f.ptr == n.ptr && f.retiredAt == n.epoch;
    assert f in Apply(s, a).freed;
  }

  lemma HandledStep(s: State, a: Action, k: nat, slot: nat, limit: nat, n: Node)
    requires Shaped(s) && Enabled(s, a) && Handled(s, k, slot, limit, n) && a != OrphanAttach(k)
    ensures Handled(Apply(s, a), k, slot, limit, n)
  {
    var s' := Apply(s, a);
    if WasFreed(s, n) {
      FreedStays(s, a, n);
    }
    if a == OrphanSplit(k) {
      var c := s.calls[k];
      assert c.todo == [c.todo[0]] + c.todo[1..];
      if c.todo[0] == n && n.epoch <= limit {
        assert Freed(n.ptr, n.epoch, s.epoch) in s'.freed;
      }
    } else {
      assert s'.calls[k] == s.calls[k];
    }
  }

  lemma {:induction false} HandledLong(states: seq<State>, actions: seq<Action>, i: nat, j: nat, k: nat, n: Node)
    requires IsRun(states, actions) && i < j < |states| && actions[i] == OrphanDetach(k)
    requires Enabled(states[i], actions[i]) && states[i].calls[k].slot < |states[i].orphans|
    requires n in states[i].orphans[states[i].calls[k].slot]
    requires forall m :: i < m < j ==> actions[m] != OrphanAttach(k)
    ensures Handled(states[j], k, states[i].calls[k].slot, states[i].calls[k].limit, n)
    decreases j
  {
    assert Shaped(states[j - 1]) && Enabled(states[j - 1], actions[j - 1]);
    assert states[j - 1 + 1] == Apply(states[j - 1], actions[j - 1]);
    if i < j - 1 {
      hide Apply;
      hide Enabled;
      HandledLong(states, actions, i, j - 1, k, n);
      HandledStep(states[j - 1], actions[j - 1], k, states[i].calls[k].slot, states[i].calls[k].limit, n);
    }
  }

  /**
   In every run, of the nodes in a slot of the pool when a flush takes it, those up to the limit have been freed when
   the flush of that slot ends, and the others are back in the slot.
   */
  lemma FlushFrees(states: seq<State>, actions: seq<Action>, i: nat, j: nat, k: nat, n: Node)
    requires IsRun(states, actions) && i < j < |actions|
    requires actions[i] == OrphanDetach(k) && actions[j] == OrphanAttach(k)
    requires forall m :: i < m < j ==> actions[m] != OrphanAttach(k)
    requires Enabled(states[i], actions[i]) && states[i].calls[k].slot < |states[i].orphans|
    requires n in states[i].orphans[states[i].calls[k].slot]
    ensures n.epoch <= states[i].calls[k].limit ==> WasFreed(states[j + 1], n)
    ensures n.epoch > states[i].calls[k].limit ==>
      states[i].calls[k].slot < |states[j + 1].orphans| && n in states[j + 1].orphans[states[i].calls[k].slot]
  {
    HandledLong(states, actions, i, j, k, n);
    assert Shaped(states[j]) && Enabled(states[j], actions[j]) && states[j + 1] == Apply(states[j], actions[j]);
    if WasFreed(states[j], n) {
      FreedStays(states[j], actions[j], n);
    }
  }

  // -------------------------------------------------------------------------
  // An advance on its own
  // -------------------------------------------------------------------------

  function Older(l: seq<Node>, limit: nat): seq<Node> {
    if l == [] then [] else (if l[0].epoch <= limit then [l[0]] else []) + Older(l[1..], limit)
  }

  function Newer(l: seq<Node>, limit: nat): seq<Node> {
    if l == [] then [] else (if l[0].epoch > limit then [l[0]] else []) + Newer(l[1..], limit)
  }

  /** Freeing a list of nodes, in order. */
  function AllFreed(l: seq<Node>, now: nat): seq<Freed> {
    if l == [] then [] else [Freed(l[0].ptr, l[0].epoch, now)] + AllFreed(l[1..], now)
  }

  lemma ShapedCall(s: State, k: nat, c: Call)
    requires Shaped(s) && k < |s.calls|
    requires ((c.Flush? || c.Splitting?) ==> c.slot < 3) && (c.SyncWaiting? ==> c.target >= 3)
    ensures Shaped(WithCall(s, k, c))
  {
  }

  /** One of the first so many handles lags. */
  ghost predicate Blocked(s: State, cur: nat, g: nat)
    requires cur <= |s.handles|
  {
    exists h :: 0 <= h < cur && Lagging(s.handles[h], g)
  }

  lemma BlockedMore(s: State, cur: nat, g: nat)
    requires cur < |s.handles|
    ensures Blocked(s, cur + 1, g) <==> Blocked(s, cur, g) || Lagging(s.handles[cur], g)
  {
  }

  /** The scan on its own ends at the first lagging handle, or gets through. */
  lemma {:induction false} ScanAlone(s: State, k: nat) returns (actions: seq<Action>)
    requires Shaped(s) && k < |s.calls| && s.calls[k].Scanning? && s.calls[k].cur <= |s.handles|
    ensures var c := s.calls[k];
      Leads(s, actions, WithCall(s, k, if Blocked(s, c.cur, c.g) then Finished else Scanning(c.g, 0)))
    decreases s.calls[k].cur
  {
    hide Lagging;
    var c := s.calls[k];
    if c.cur == 0 {
      actions := [];
      assert WithCall(s, k, c) == s;
      return;
    }
    hide Leads;
    hide Blocked;
    actions := VisitHandle(s, k);
    BlockedMore(s, c.cur - 1, c.g);
    if !Lagging(s.handles[c.cur - 1], c.g) {
      var m := WithCall(s, k, Scanning(c.g, c.cur - 1));
      ShapedCall(s, k, Scanning(c.g, c.cur - 1));
      var rest := ScanAlone(m, k);
      var end := if Blocked(s, c.cur, c.g) then Finished else Scanning(c.g, 0);
      SameBlocked(s, m, c.cur - 1, c.g);
      assert WithCall(m, k, end) == WithCall(s, k, end);
      LeadsJoin(s, actions, m, rest, WithCall(s, k, end));
      actions := actions + rest;
    }
  }

  lemma SameBlocked(s: State, m: State, cur: nat, g: nat)
    requires m.handles == s.handles && cur <= |s.handles|
    ensures Blocked(m, cur, g) <==> Blocked(s, cur, g)
  {
  }

  /** One handle of the scan: one load for an unregistered handle, two for a registered one. */
  lemma VisitHandle(s: State, k: nat) returns (actions: seq<Action>)
    requires Shaped(s) && k < |s.calls| && s.calls[k].Scanning? && 0 < s.calls[k].cur <= |s.handles|
    ensures var c := s.calls[k];
      var lags := Lagging(s.handles[c.cur - 1], c.g);
      Leads(s, actions, WithCall(s, k, if lags then Finished else Scanning(c.g, c.cur - 1)))
  {
    var c := s.calls[k];
    LeadsOne(s, ScanRegistered(k));
    actions := [ScanRegistered(k)];
    if s.handles[c.cur - 1].registered {
      var m := WithCall(s, k, SawRegistered(c.g, c.cur));
      assert m == Apply(s, ScanRegistered(k));
      ShapedCall(s, k, SawRegistered(c.g, c.cur));
      hide Leads;
      LeadsMore(s, actions, m, ScanActive(k));
      actions := actions + [ScanActive(k)];
      var end := if Lagging(s.handles[c.cur - 1], c.g) then Finished else Scanning(c.g, c.cur - 1);
      assert Apply(m, ScanActive(k)) == WithCall(s, k, end);
    }
  }

  lemma {:induction false} SplitAlone(s: State, k: nat) returns (actions: seq<Action>)
    requires Shaped(s) && k < |s.calls| && s.calls[k].Splitting?
    ensures var c := s.calls[k];
      Leads(s, actions, WithCall(s, k, c.(todo := [], keep := c.keep + Newer(c.todo, c.limit)))
        .(freed := s.freed + AllFreed(Older(c.todo, c.limit), s.epoch)))
    decreases |s.calls[k].todo|
  {
    var c := s.calls[k];
    if c.todo == [] {
      actions := [];
      assert c.(todo := [], keep := c.keep + []) == c && WithCall(s, k, c) == s && s.freed + [] == s.freed;
      return;
    }
    var a, n := OrphanSplit(k), c.todo[0];
    LeadsOne(s, a);
    var m := Apply(s, a);
    assert Shaped(m) by {
      ShapedCall(s, k, m.calls[k]);
    }
    hide Leads;
    var rest := SplitAlone(m, k);
    actions := [a] + rest;
    SplitMeets(s, k, m);
    LeadsJoin(s, [a], m, rest, WithCall(s, k, c.(todo := [], keep := c.keep + Newer(c.todo, c.limit)))
      .(freed := s.freed + AllFreed(Older(c.todo, c.limit), s.epoch)));
  }

  lemma SplitSeqs(todo: seq<Node>, keep: seq<Node>, limit: nat, freed: seq<Freed>, now: nat)
    requires todo != []
    ensures todo[0].epoch > limit ==>
      && keep + Newer(todo, limit) == keep + [todo[0]] + Newer(todo[1..], limit)
      && Older(todo, limit) == Older(todo[1..], limit)
    ensures todo[0].epoch <= limit ==>
      && Newer(todo, limit) == Newer(todo[1..], limit)
      && freed + AllFreed(Older(todo, limit), now) ==
         freed + [Freed(todo[0].ptr, todo[0].epoch, now)] + AllFreed(Older(todo[1..], limit), now)
  {
    var older := Older(todo[1..], limit);
    assert ([todo[0]] + older)[1..] == older;
  }

  lemma SplitMeets(s: State, k: nat, m: State)
    requires Shaped(s) && Enabled(s, OrphanSplit(k)) && m == Apply(s, OrphanSplit(k))
    ensures var c, c' := s.calls[k], m.calls[k];
      c'.Splitting? &&
      WithCall(m, k, c'.(todo := [], keep := c'.keep + Newer(c'.todo, c'.limit)))
        .(freed := m.freed + AllFreed(Older(c'.todo, c'.limit), m.epoch)) ==
      WithCall(s, k, c.(todo := [], keep := c.keep + Newer(c.todo, c.limit)))
        .(freed := s.freed + AllFreed(Older(c.todo, c.limit), s.epoch))
  {
    hide Newer;
    hide Older;
    hide AllFreed;
    var c := s.calls[k];
    SplitSeqs(c.todo, c.keep, c.limit, s.freed, s.epoch);
  }

  /** The state after the flush of one slot. */
  function Flushed(s: State, k: nat): State
    requires Shaped(s) && k < |s.calls| && s.calls[k].Flush? && s.calls[k].slot < 3
  {
    var c := s.calls[k];
    WithCall(s, k, if c.slot < c.last then Flush(c.slot + 1, c.last, c.limit) else Finished)
    .(orphans := s.orphans[c.slot := Newer(s.orphans[c.slot], c.limit)],
      freed := s.freed + AllFreed(Older(s.orphans[c.slot], c.limit), s.epoch))
  }

  /** The state with the slot taken and split. */
  function Split(s: State, k: nat): State
    requires Shaped(s) && k < |s.calls| && s.calls[k].Flush? && s.calls[k].slot < 3
  {
    var c := s.calls[k];
    WithCall(s, k, Splitting(c.slot, c.last, c.limit, [], Newer(s.orphans[c.slot], c.limit)))
    .(orphans := s.orphans[c.slot := []],
      freed := s.freed + AllFreed(Older(s.orphans[c.slot], c.limit), s.epoch))
  }

  lemma TakeAndSplit(s: State, k: nat) returns (actions: seq<Action>)
    requires Shaped(s) && k < |s.calls| && s.calls[k].Flush? && s.calls[k].slot < 3
    ensures Leads(s, actions, Split(s, k)) && Shaped(Split(s, k))
  {
    hide Leads;
    hide Newer;
    hide Older;
    hide AllFreed;
    var c := s.calls[k];
    LeadsOne(s, OrphanDetach(k));
    var m := Apply(s, OrphanDetach(k));
    assert m == WithCall(s, k, Splitting(c.slot, c.last, c.limit, s.orphans[c.slot], []))
      .(orphans := s.orphans[c.slot := []]);
    assert Shaped(m) by { ShapedCall(s.(orphans := m.orphans), k, m.calls[k]); }
    var rest := SplitAlone(m, k);
    var kept := Newer(s.orphans[c.slot], c.limit);
    assert [] + kept == kept;
    LeadsJoin(s, [OrphanDetach(k)], m, rest, Split(s, k)) by {
      assert m.calls[k := Splitting(c.slot, c.last, c.limit, [], kept)] == Split(s, k).calls;
    }
    actions := [OrphanDetach(k)] + rest;
    ShapedCall(s.(orphans := m.orphans, freed := Split(s, k).freed), k, Split(s, k).calls[k]);
  }

  lemma AttachIs(s: State, k: nat)
    requires Shaped(s) && k < |s.calls| && s.calls[k].Flush? && s.calls[k].slot < 3 && Shaped(Split(s, k))
    ensures Enabled(Split(s, k), OrphanAttach(k)) && Apply(Split(s, k), OrphanAttach(k)) == Flushed(s, k)
  {
    hide Newer;
    hide Older;
    hide AllFreed;
    var c, kept := s.calls[k], Newer(s.orphans[s.calls[k].slot], s.calls[k].limit);
    assert kept + [] == kept;
    assert s.orphans[c.slot := []][c.slot := kept] == s.orphans[c.slot := kept];
  }

  /** The flush of one slot on its own. */
  lemma FlushAlone(s: State, k: nat) returns (actions: seq<Action>)
    requires Shaped(s) && k < |s.calls| && s.calls[k].Flush? && s.calls[k].slot < 3
    ensures Leads(s, actions, Flushed(s, k))
  {
    hide Leads;
    hide Apply;
    hide Enabled;
    hide Split;
    hide Flushed;
    actions := TakeAndSplit(s, k);
    AttachIs(s, k);
    LeadsMore(s, actions, Split(s, k), OrphanAttach(k));
    actions := actions + [OrphanAttach(k)];
  }

  /** The epoch has been raised, and the flush of the slot that became safe is about to begin. */
  function Raising(s: State): State {
    var slot := (s.epoch + 2) % 3;
    s.(epoch := s.epoch + 1, calls := s.calls + [Flush(slot, slot, if s.epoch == 0 then 0 else s.epoch - 1)])
  }

  /** The state after an advance that nothing interrupts. */
  ghost function Advanced(s: State): State
    requires Shaped(s)
  {
    var calls := s.calls + [Finished];
    if Blocked(s, |s.handles|, s.epoch) then s.(calls := calls)
    else
      var slot, limit := (s.epoch + 2) % 3, if s.epoch == 0 then 0 else s.epoch - 1;
      s.(epoch := s.epoch + 1, calls := calls,
         orphans := s.orphans[slot := Newer(s.orphans[slot], limit)],
         freed := s.freed + AllFreed(Older(s.orphans[slot], limit), s.epoch + 1))
  }

  lemma ShapedMore(s: State, c: Call)
    requires Shaped(s) && !c.Flush? && !c.Splitting? && (c.SyncWaiting? ==> c.target >= 3)
    ensures Shaped(s.(calls := s.calls + [c]))
  {
  }

  lemma RaiseAlone(s: State) returns (actions: seq<Action>)
    requires Shaped(s)
    ensures var blocked := Blocked(s, |s.handles|, s.epoch);
      Leads(s, actions, if blocked then s.(calls := s.calls + [Finished]) else Raising(s))
    ensures Shaped(Raising(s))
  {
    hide Leads;
    hide Blocked;
    var k, g := |s.calls|, s.epoch;
    LeadsOne(s, AdvanceStart);
    var s1 := Apply(s, AdvanceStart);
    ShapedMore(s, AdvanceLoaded(g));
    LeadsMore(s, [AdvanceStart], s1, AdvanceHead(k));
    var s2 := WithCall(s1, k, Scanning(g, |s.handles|));
    assert s2 == Apply(s1, AdvanceHead(k));
    ShapedCall(s1, k, Scanning(g, |s.handles|));
    var scan := ScanAlone(s2, k);
    var blocked := Blocked(s, |s.handles|, g);
    SameBlocked(s, s2, |s.handles|, g);
    var s3 := WithCall(s2, k, if blocked then Finished else Scanning(g, 0));
    ShapedCall(s2, k, s3.calls[k]);
    LeadsJoin(s, [AdvanceStart] + [AdvanceHead(k)], s2, scan, s3);
    actions := [AdvanceStart] + [AdvanceHead(k)] + scan;
    ShapedCall(s1, k, Raising(s).calls[k]);
    assert WithCall(s1, k, Raising(s).calls[k]).calls == Raising(s).calls;
    if blocked {
      assert s3.calls == s.calls + [Finished];
    } else {
      LeadsMore(s, actions, s3, AdvanceCas(k));
      actions := actions + [AdvanceCas(k)];
      assert Apply(s3, AdvanceCas(k)).calls == Raising(s).calls;
    }
  }

  /**
   An advance that nothing interrupts raises the epoch by one exactly if no handle lags, and then frees the orphans of
   its slot that were retired before the epoch it left.
   */
  lemma AdvanceAlone(s: State) returns (actions: seq<Action>)
    requires Shaped(s)
    ensures Leads(s, actions, Advanced(s))
  {
    hide Leads;
    hide Blocked;
    hide Newer;
    hide Older;
    hide AllFreed;
    actions := RaiseAlone(s);
    if !Blocked(s, |s.handles|, s.epoch) {
      var t, k := Raising(s), |s.calls|;
      var flush := FlushAlone(t, k);
      assert t.calls[k := Finished] == s.calls + [Finished];
      LeadsJoin(s, actions, t, flush, Advanced(s));
      actions := actions + flush;
    }
  }

  // -------------------------------------------------------------------------
  // Sync in any run
  // -------------------------------------------------------------------------

  /** A waiting sync waits for the epoch to rise by three from where it was when the call began. */
  lemma {:induction false} SyncTarget(states: seq<State>, actions: seq<Action>, j: nat, k: nat) returns (i: nat)
    requires IsRun(states, actions) && j < |states| && k < |states[j].calls| && states[j].calls[k].SyncWaiting?
    ensures i < j && actions[i] == SyncStart && k == |states[i].calls|
    ensures states[j].calls[k].target == states[i].epoch + 3
    decreases j
  {
    assert j > 0;
    var s, a := states[j - 1], actions[j - 1];
    assert Shaped(s) && Enabled(s, a) && states[j - 1 + 1] == Apply(s, a);
    if k < |s.calls| {
      WaitingBefore(s, a, k);
      hide Apply;
      hide Enabled;
      i := SyncTarget(states, actions, j - 1, k);
    } else {
      NewWaiting(s, a, k);
      i := j - 1;
    }
  }

  lemma WaitingBefore(s: State, a: Action, k: nat)
    requires Shaped(s) && Enabled(s, a) && k < |s.calls| && k < |Apply(s, a).calls| && Apply(s, a).calls[k].SyncWaiting?
    ensures s.calls[k] == Apply(s, a).calls[k]
  {
  }

  lemma NewWaiting(s: State, a: Action, k: nat)
    requires Shaped(s) && Enabled(s, a) && |s.calls| <= k < |Apply(s, a).calls| && Apply(s, a).calls[k].SyncWaiting?
    ensures a == SyncStart && k == |s.calls| && Apply(s, a).calls[k].target == s.epoch + 3
  {
  }

  /** At step m call k took slot q of the pool, to free what is not newer than the limit. */
  ghost predicate Took(states: seq<State>, actions: seq<Action>, k: nat, q: nat, limit: nat, m: nat)
    requires |states| == |actions| + 1
  {
    && m < |actions| && actions[m] == OrphanDetach(k) && k < |states[m].calls| && |states[m].orphans| == 3 && q < 3
    && states[m].calls[k].Flush? && states[m].calls[k].slot == q && states[m].calls[k].limit == limit
  }

  /** What was in the slot then and is not newer than the limit has been freed since. */
  ghost predicate Emptied(states: seq<State>, q: nat, limit: nat, m: nat, j: nat)
    requires m < |states| && j < |states| && q < |states[m].orphans|
  {
    forall n :: n in states[m].orphans[q] && n.epoch <= limit ==> WasFreed(states[j], n)
  }

  ghost predicate InHand(states: seq<State>, k: nat, q: nat, limit: nat, m: nat, j: nat)
    requires m < |states| && j < |states| && q < |states[m].orphans|
  {
    forall n :: n in states[m].orphans[q] ==> Handled(states[j], k, q, limit, n)
  }

  /** How a flush of the slots up to `last` stands, with regard to slot q. */
  ghost predicate FlushState(states: seq<State>, actions: seq<Action>, d: nat, j: nat, k: nat, q: nat, last: nat,
                             limit: nat, m: nat)
    requires |states| == |actions| + 1 && j < |states|
  {
    && k < |states[j].calls|
    && var c := states[j].calls[k];
    && (c.Flush? || c.Splitting? || c.Finished?)
    && (!c.Finished? ==> c.last == last && c.limit == limit && c.slot < 3 && c.slot <= last)
    && (c.Finished? || c.slot > q ==>
          d < m < j && Took(states, actions, k, q, limit, m) && Emptied(states, q, limit, m, j))
    && (c.Splitting? && c.slot == q ==>
          d < m < j && Took(states, actions, k, q, limit, m) && InHand(states, k, q, limit, m, j))
  }

  lemma SameCall(s: State, a: Action, k: nat)
    requires Shaped(s) && Enabled(s, a) && k < |s.calls|
    requires s.calls[k].Flush? || s.calls[k].Splitting? || s.calls[k].Finished?
    ensures k < |Apply(s, a).calls|
    ensures a !in {OrphanDetach(k), OrphanSplit(k), OrphanAttach(k)} ==> Apply(s, a).calls[k] == s.calls[k]
    ensures s.calls[k].Finished? ==> Apply(s, a).calls[k].Finished?
  {
  }

  lemma EmptiedLater(states: seq<State>, actions: seq<Action>, q: nat, limit: nat, m: nat, j: nat)
    requires IsRun(states, actions) && m < |states| && 0 < j < |states| && q < |states[m].orphans|
    requires Emptied(states, q, limit, m, j - 1)
    ensures Emptied(states, q, limit, m, j)
  {
    hide Apply;
    hide Enabled;
    forall n | n in states[m].orphans[q] && n.epoch <= limit
      ensures WasFreed(states[j], n)
    {
      FreedStays(states[j - 1], actions[j - 1], n);
      assert states[j - 1 + 1] == Apply(states[j - 1], actions[j - 1]);
    }
  }

  lemma InHandLater(states: seq<State>, actions: seq<Action>, k: nat, q: nat, limit: nat, m: nat, j: nat)
    requires IsRun(states, actions) && m < |states| && 0 < j < |states| && q < |states[m].orphans|
    requires InHand(states, k, q, limit, m, j - 1) && actions[j - 1] != OrphanAttach(k)
    ensures InHand(states, k, q, limit, m, j)
  {
    hide Apply;
    hide Enabled;
    forall n | n in states[m].orphans[q]
      ensures Handled(states[j], k, q, limit, n)
    {
      HandledStep(states[j - 1], actions[j - 1], k, q, limit, n);
      assert states[j - 1 + 1] == Apply(states[j - 1], actions[j - 1]);
    }
  }

  lemma InHandDone(states: seq<State>, actions: seq<Action>, k: nat, q: nat, limit: nat, m: nat, j: nat)
    requires IsRun(states, actions) && m < |states| && 0 < j < |states| && q < |states[m].orphans|
    requires InHand(states, k, q, limit, m, j - 1) && actions[j - 1] == OrphanAttach(k)
    ensures Emptied(states, q, limit, m, j)
  {
    forall n | n in states[m].orphans[q] && n.epoch <= limit
      ensures WasFreed(states[j], n)
    {
      assert Handled(states[j - 1], k, q, limit, n);
      assert Enabled(states[j - 1], actions[j - 1]);
      FreedStays(states[j - 1], actions[j - 1], n);
      assert states[j - 1 + 1] == Apply(states[j - 1], actions[j - 1]);
    }
  }

  lemma FlushStep(states: seq<State>, actions: seq<Action>, d: nat, j: nat, k: nat, q: nat, last: nat, limit: nat,
                  m: nat)
      returns (m': nat)
    requires IsRun(states, actions) && d < j < |actions| && q <= last < 3
    requires FlushState(states, actions, d, j, k, q, last, limit, m)
    ensures FlushState(states, actions, d, j + 1, k, q, last, limit, m')
  {
    hide Emptied;
    hide InHand;
    var s, a, c := states[j], actions[j], states[j].calls[k];
    assert Shaped(s) && Enabled(s, a) && states[j + 1] == Apply(s, a);
    m' := m;
    SameCall(s, a, k);
    if a == OrphanDetach(k) {
      TakeEffect(s, k);
      if c.slot == q {
        m' := j;
        JustTaken(states, actions, k, q, limit, j);
      }
    } else if a == OrphanSplit(k) {
      SplitEffect(s, k);
    } else if a == OrphanAttach(k) {
      AttachEffect(s, k);
    }
    hide Apply;
    hide Enabled;
    if a != OrphanDetach(k) && (c.Finished? || c.slot > q) {
      EmptiedLater(states, actions, q, limit, m, j + 1);
    }
    if a == OrphanDetach(k) && c.slot > q {
      EmptiedLater(states, actions, q, limit, m, j + 1);
    }
    if c.Splitting? && c.slot == q {
      if a == OrphanAttach(k) {
        InHandDone(states, actions, k, q, limit, m, j + 1);
      } else {
        InHandLater(states, actions, k, q, limit, m, j + 1);
      }
    }
  }

  lemma TakeEffect(s: State, k: nat)
    requires Shaped(s) && Enabled(s, OrphanDetach(k)) && k < |s.calls|
    ensures var c, c' := s.calls[k], Apply(s, OrphanDetach(k)).calls[k];
      c.Flush? && c'.Splitting? && c'.slot == c.slot && c'.last == c.last && c'.limit == c.limit
  {
  }

  lemma SplitEffect(s: State, k: nat)
    requires Shaped(s) && Enabled(s, OrphanSplit(k)) && k < |s.calls|
    ensures var c, c' := s.calls[k], Apply(s, OrphanSplit(k)).calls[k];
      c.Splitting? && c'.Splitting? && c'.slot == c.slot && c'.last == c.last && c'.limit == c.limit
  {
  }

  lemma AttachEffect(s: State, k: nat)
    requires Shaped(s) && Enabled(s, OrphanAttach(k)) && k < |s.calls|
    ensures var c, c' := s.calls[k], Apply(s, OrphanAttach(k)).calls[k];
      c.Splitting? && c' == if c.slot < c.last then Flush(c.slot + 1, c.last, c.limit) else Finished
  {
  }

  lemma JustTaken(states: seq<State>, actions: seq<Action>, k: nat, q: nat, limit: nat, j: nat)
    requires IsRun(states, actions) && j < |actions| && Took(states, actions, k, q, limit, j)
    ensures InHand(states, k, q, limit, j, j + 1)
  {
    assert Shaped(states[j]) && states[j + 1] == Apply(states[j], actions[j]);
  }

  lemma {:induction false} FlushTrace(states: seq<State>, actions: seq<Action>, d: nat, j: nat, k: nat, q: nat)
      returns (m: nat)
    requires IsRun(states, actions) && d < j < |states| && k < |states[d + 1].calls| && states[d + 1].calls[k].Flush?
    requires var c := states[d + 1].calls[k]; c.slot <= q <= c.last < 3
    ensures var c := states[d + 1].calls[k]; FlushState(states, actions, d, j, k, q, c.last, c.limit, m)
    decreases j
  {
    if d == j - 1 {
      m := 0;
    } else {
      hide FlushState;
      m := FlushTrace(states, actions, d, j - 1, k, q);
      m := FlushStep(states, actions, d, j - 1, k, q, states[d + 1].calls[k].last, states[d + 1].calls[k].limit, m);
    }
  }

  /**
   In every run, an advance that moved the epoch on from g and has ended took slot (g + 2) % 3 of the pool, and all that
   was in it with an epoch before g has been freed.
   */
  lemma AdvanceFlushes(states: seq<State>, actions: seq<Action>, d: nat, j: nat, k: nat, g: nat) returns (m: nat)
    requires IsRun(states, actions) && d < j < |states| && Raised(states, actions, k, g, d)
    requires k < |states[j].calls| && states[j].calls[k].Finished?
    ensures d < m < j
    ensures var q, limit := (g + 2) % 3, if g == 0 then 0 else g - 1;
      Took(states, actions, k, q, limit, m) && Emptied(states, q, limit, m, j)
  {
    hide Emptied;
    hide Took;
    hide IsRun;
    var c := states[d + 1].calls[k];
    m := FlushTrace(states, actions, d, j, k, c.slot);
  }

  /**
   In every run, a sync that has ended took every slot of the pool once the epoch had risen by three, and all that was
   in it with an epoch up to its target less two has been freed.
   */
  lemma SyncFlushes(states: seq<State>, actions: seq<Action>, d: nat, j: nat, k: nat, q: nat) returns (i: nat, m: nat)
    requires IsRun(states, actions) && d < j < |states| && actions[d] == SyncDone(k) && q < 3
    requires k < |states[j].calls| && states[j].calls[k].Finished?
    ensures i < d < m < j && actions[i] == SyncStart && k == |states[i].calls| && states[d].epoch >= states[i].epoch + 3
    ensures Enabled(states[d], SyncDone(k)) && states[d].calls[k].target == states[i].epoch + 3
    ensures Took(states, actions, k, q, states[i].epoch + 1, m) && Emptied(states, q, states[i].epoch + 1, m, j)
  {
    hide Emptied;
    hide Took;
    assert Enabled(states[d], actions[d]);
    i := SyncTarget(states, actions, d, k);
    assert states[d + 1] == Apply(states[d], actions[d]);
    m := FlushTrace(states, actions, d, j, k, q);
  }

  lemma StaysInPool(s: State, a: Action, q: nat, n: Node)
    requires Shaped(s) && Enabled(s, a) && q < 3 && n in s.orphans[q]
    requires !(a.OrphanDetach? && s.calls[a.k].slot == q)
    ensures q < |Apply(s, a).orphans| && n in Apply(s, a).orphans[q]
  {
  }

  /** A node leaves its slot of the pool only when a call takes the slot. */
  lemma {:induction false} LeavesPool(states: seq<State>, actions: seq<Action>, d: nat, m: nat, q: nat, n: Node)
      returns (i: nat)
    requires IsRun(states, actions) && d <= m < |states| && q < 3
    requires |states[d].orphans| == 3 && |states[m].orphans| == 3
    requires n in states[d].orphans[q] && n !in states[m].orphans[q]
    ensures d <= i < m && Enabled(states[i], actions[i]) && actions[i].OrphanDetach?
    ensures states[i].calls[actions[i].k].slot == q && |states[i].orphans| == 3 && n in states[i].orphans[q]
    decreases m - d
  {
    hide Apply;
    assert d < m;
    assert Shaped(states[d]) && Enabled(states[d], actions[d]) && states[d + 1] == Apply(states[d], actions[d]);
    if actions[d].OrphanDetach? && states[d].calls[actions[d].k].slot == q {
      i := d;
    } else {
      StaysInPool(states[d], actions[d], q, n);
      assert |states[d + 1].orphans| == 3 by {
        if d + 1 < m { assert Shaped(states[d + 1]); }
      }
      i := LeavesPool(states, actions, d + 1, m, q, n);
    }
  }

  /**
   What was in the pool when a sync began to flush, with an epoch up to its target less two, has been freed when it
   ends, unless another call took it out of the pool in between.
   */
  lemma SyncLeavesNothing(states: seq<State>, actions: seq<Action>, d: nat, j: nat, k: nat, q: nat, n: Node)
      returns (m: nat)
    requires IsRun(states, actions) && d < j < |states| && actions[d] == SyncDone(k) && q < 3
    requires k < |states[j].calls| && states[j].calls[k].Finished? && |states[d].orphans| == 3
    requires n in states[d].orphans[q] && Enabled(states[d], actions[d]) && n.epoch + 2 <= states[d].calls[k].target
    ensures WasFreed(states[j], n) ||
      (d < m < j && actions[m].OrphanDetach? && actions[m].k != k && Enabled(states[m], actions[m]) &&
       |states[m].orphans| == 3 && states[m].calls[actions[m].k].slot == q && n in states[m].orphans[q])
  {
    hide Apply;
    var i;
    i, m := SyncFlushes(states, actions, d, j, k, q);
    if n !in states[m].orphans[q] {
      var first := m;
      m := LeavesPool(states, actions, d, m, q, n);
      assert Enabled(states[first], actions[first]);
      if actions[m].k == k {
        TakenOnce(states, actions, m, first, k);
      }
    }
  }

  /** A call takes each slot once. */
  lemma TakenOnce(states: seq<State>, actions: seq<Action>, m: nat, m': nat, k: nat)
    requires IsRun(states, actions) && m < m' < |actions|
    requires actions[m] == OrphanDetach(k) && Enabled(states[m], actions[m])
    requires actions[m'] == OrphanDetach(k) && Enabled(states[m'], actions[m'])
    ensures states[m].calls[k].slot < states[m'].calls[k].slot
  {
    hide Apply;
    SlotsRise(states, actions, m, m', k);
  }

  lemma {:induction false} SlotsRise(states: seq<State>, actions: seq<Action>, m: nat, j: nat, k: nat)
    requires IsRun(states, actions) && m < j < |states|
    requires actions[m] == OrphanDetach(k) && Enabled(states[m], actions[m])
    ensures k < |states[j].calls| && var c := states[j].calls[k];
      || (c.Splitting? && c.slot >= states[m].calls[k].slot)
      || (c.Flush? && c.slot > states[m].calls[k].slot)
      || c.Finished?
    decreases j
  {
    var s, a := states[j - 1], actions[j - 1];
    assert Shaped(s) && Enabled(s, a) && states[j - 1 + 1] == Apply(s, a);
    hide Apply;
    hide Enabled;
    if m < j - 1 {
      SlotsRise(states, actions, m, j - 1, k);
      SameCall(s, a, k);
    }
    if a == OrphanDetach(k) {
      TakeEffect(s, k);
    } else if a == OrphanSplit(k) {
      SplitEffect(s, k);
    } else if a == OrphanAttach(k) {
      AttachEffect(s, k);
    }
  }

  // -------------------------------------------------------------------------
  // Sync on its own
  // -------------------------------------------------------------------------

  predicate NoneActive(s: State) {
    forall h :: 0 <= h < |s.handles| ==> !s.handles[h].active
  }

  /** Everything in the pool of s has been freed or is still in its slot of the pool of t. */
  ghost predicate PoolKept(s: State, t: State) {
    && |s.orphans| == 3 && |t.orphans| == 3
    && (forall q, n :: 0 <= q < 3 && n in t.orphans[q] ==> n in s.orphans[q])
    && (forall q, n :: 0 <= q < 3 && n in s.orphans[q] ==> n in t.orphans[q] || WasFreed(t, n))
    && (forall f :: f in s.freed ==> f in t.freed)
  }

  lemma PoolKeptTrans(s: State, t: State, u: State)
    requires PoolKept(s, t) && PoolKept(t, u)
    ensures PoolKept(s, u)
  {
    forall q, n | 0 <= q < 3 && n in s.orphans[q]
      ensures n in u.orphans[q] || WasFreed(u, n)
    {
      if n !in t.orphans[q] {
        assert WasFreed(t, n);
        var f :| f in t.freed && f.ptr == n.ptr && f.retiredAt == n.epoch;
        assert f in u.freed;
      }
    }
  }

  lemma {:induction false} Shared(l: seq<Node>, limit: nat, n: Node)
    ensures n in Newer(l, limit) <==> n in l && n.epoch > limit
    ensures n in Older(l, limit) <==> n in l && n.epoch <= limit
  {
    if l != [] {
      Shared(l[1..], limit, n);
    }
  }

  lemma {:induction false} FreedFrom(l: seq<Node>, now: nat, n: Node)
    requires n in l
    ensures Freed(n.ptr, n.epoch, now) in AllFreed(l, now)
  {
    if n != l[0] {
      FreedFrom(l[1..], now, n);
    }
  }

  /** Flushing one slot up to a limit loses nothing. */
  lemma SlotFlushed(s: State, t: State, slot: nat, limit: nat, now: nat)
    requires |s.orphans| == 3 && slot < 3
    requires t.orphans == s.orphans[slot := Newer(s.orphans[slot], limit)]
    requires t.freed == s.freed + AllFreed(Older(s.orphans[slot], limit), now)
    ensures PoolKept(s, t) && forall n :: n in t.orphans[slot] ==> n.epoch > limit
  {
    hide Newer;
    hide Older;
    hide AllFreed;
    var l := s.orphans[slot];
    forall n
      ensures n in Newer(l, limit) <==> n in l && n.epoch > limit
    {
      Shared(l, limit, n);
    }
    forall n | n in l && n.epoch <= limit
      ensures WasFreed(t, n)
    {
      Shared(l, limit, n);
      FreedFrom(Older(l, limit), now, n);
      assert Freed(n.ptr, n.epoch, now) in t.freed;
    }
  }

  lemma AdvancedKeeps(s: State)
    requires Shaped(s) && NoneActive(s)
    ensures var t := Advanced(s);
      && t.epoch == s.epoch + 1 && t.handles == s.handles && t.calls == s.calls + [Finished] && NoneActive(t)
      && PoolKept(s, t) && Shaped(t)
  {
    hide Newer;
    hide Older;
    hide AllFreed;
    var t := Advanced(s);
    assert !Blocked(s, |s.handles|, s.epoch);
    var slot, limit := (s.epoch + 2) % 3, if s.epoch == 0 then 0 else s.epoch - 1;
    SlotFlushed(s, t, slot, limit, s.epoch + 1);
    ShapedMore(s, Finished);
  }

  lemma ThreeAdvances(s: State) returns (actions: seq<Action>, t: State)
    requires Shaped(s) && NoneActive(s)
    ensures Leads(s, actions, t) && t.epoch == s.epoch + 3 && t.handles == s.handles && PoolKept(s, t) && Shaped(t)
    ensures t.calls == s.calls + [Finished] + [Finished] + [Finished]
  {
    hide Leads;
    hide Advanced;
    hide PoolKept;
    hide NoneActive;
    hide Shaped;
    var t1 := Advanced(s);
    AdvancedKeeps(s);
    var a1 := AdvanceAlone(s);
    var t2 := Advanced(t1);
    AdvancedKeeps(t1);
    var a2 := AdvanceAlone(t1);
    t := Advanced(t2);
    AdvancedKeeps(t2);
    var a3 := AdvanceAlone(t2);
    LeadsJoin(s, a1, t1, a2, t2);
    LeadsJoin(s, a1 + a2, t2, a3, t);
    PoolKeptTrans(s, t1, t2);
    PoolKeptTrans(s, t2, t);
    actions := a1 + a2 + a3;
  }

  lemma FlushedKeeps(s: State, k: nat)
    requires Shaped(s) && k < |s.calls| && s.calls[k].Flush? && s.calls[k].slot < 3 && s.calls[k].last < 3
    ensures var c, t := s.calls[k], Flushed(s, k);
      && PoolKept(s, t) && Shaped(t) && t.epoch == s.epoch && t.handles == s.handles
      && t.calls == s.calls[k := if c.slot < c.last then Flush(c.slot + 1, c.last, c.limit) else Finished]
      && (forall n :: n in t.orphans[c.slot] ==> n.epoch > c.limit)
      && (forall q :: 0 <= q < 3 && q != c.slot ==> t.orphans[q] == s.orphans[q])
  {
    hide Newer;
    hide Older;
    hide AllFreed;
    var c, t := s.calls[k], Flushed(s, k);
    SlotFlushed(s, t, c.slot, c.limit, s.epoch);
    ShapedCall(s.(orphans := t.orphans, freed := t.freed), k, t.calls[k]);
  }

  lemma ThreeFlushes(s: State, k: nat) returns (actions: seq<Action>, t: State)
    requires Shaped(s) && k < |s.calls| && s.calls[k].Flush? && s.calls[k].slot == 0 && s.calls[k].last == 2
    ensures Leads(s, actions, t) && PoolKept(s, t) && t.epoch == s.epoch && t.handles == s.handles
    ensures t.calls == s.calls[k := Finished] && Shaped(t)
    ensures |t.orphans| == 3 && forall q, n :: 0 <= q < 3 && n in t.orphans[q] ==> n.epoch > s.calls[k].limit
  {
    hide Leads;
    hide Flushed;
    hide Shaped;
    var c := s.calls[k];
    var t1 := Flushed(s, k);
    FlushedKeeps(s, k);
    var a1 := FlushAlone(s, k);
    var t2 := Flushed(t1, k);
    FlushedKeeps(t1, k);
    var a2 := FlushAlone(t1, k);
    t := Flushed(t2, k);
    FlushedKeeps(t2, k);
    var a3 := FlushAlone(t2, k);
    LeadsJoin(s, a1, t1, a2, t2);
    LeadsJoin(s, a1 + a2, t2, a3, t);
    PoolKeptTrans(s, t1, t2);
    PoolKeptTrans(s, t2, t);
    actions := a1 + a2 + a3;
  }

  lemma PoolBound(s: State)
    requires Inv(s)
    ensures |s.orphans| == 3 && forall q, n :: 0 <= q < 3 && n in s.orphans[q] ==> n.epoch <= s.epoch
  {
    hide HandleOk;
    hide CallOk;
    forall q, n | 0 <= q < 3 && n in s.orphans[q]
      ensures n.epoch <= s.epoch
    {
      assert ListOk(s, s.orphans[q], q, s.epoch);
    }
  }

  lemma SyncBegins(s: State)
    requires Shaped(s)
    ensures var t := Apply(s, SyncStart);
      t == s.(calls := s.calls + [SyncWaiting(s.epoch + 3)]) && Shaped(t) && (NoneActive(s) ==> NoneActive(t))
  {
    ShapedMore(s, SyncWaiting(s.epoch + 3));
  }

  lemma SyncTurns(s: State, k: nat)
    requires Shaped(s) && k < |s.calls| && s.calls[k].SyncWaiting? && s.epoch >= s.calls[k].target
    ensures Enabled(s, SyncDone(k))
    ensures Apply(s, SyncDone(k)) == WithCall(s, k, Flush(0, 2, s.calls[k].target - 2)) && Shaped(Apply(s, SyncDone(k)))
  {
    assert s.calls[k] in s.calls;
    ShapedCall(s, k, Flush(0, 2, s.calls[k].target - 2));
  }

  /** With no handle in a section, a sync on its own raises the epoch by three and frees all the orphans there are. */
  lemma SyncAlone(s: State) returns (actions: seq<Action>, e: State)
    requires Inv(s) && NoneActive(s)
    ensures Leads(s, actions, e) && e.epoch == s.epoch + 3 && e.handles == s.handles && e.orphans == [[], [], []]
    ensures |e.calls| == |s.calls| + 4 && e.calls[|s.calls|].Finished?
    ensures forall q, n :: 0 <= q < 3 && n in s.orphans[q] ==> WasFreed(e, n)
  {
    PoolBound(s);
    hide Leads;
    hide Inv;
    hide NoneActive;
    hide Apply;
    hide Enabled;
    hide Shaped;
    hide WasFreed;
    var k := |s.calls|;
    assert Shaped(s) by { InvShaped(s); }
    var s1 := Apply(s, SyncStart);
    SyncBegins(s);
    assert Enabled(s, SyncStart) by { SyncEnabled(s); }
    LeadsOne(s, SyncStart);
    var middle, s2 := ThreeAdvances(s1);
    LeadsJoin(s, [SyncStart], s1, middle, s2);
    assert s2.calls[k] == SyncWaiting(s.epoch + 3);
    SyncTurns(s2, k);
    var s3 := Apply(s2, SyncDone(k));
    LeadsMore(s, [SyncStart] + middle, s2, SyncDone(k));
    var flush;
    flush, e := ThreeFlushes(s3, k);
    actions := [SyncStart] + middle + [SyncDone(k)] + flush;
    LeadsJoin(s, [SyncStart] + middle + [SyncDone(k)], s3, flush, e);
    assert PoolKept(s, e) by {
      SamePool(s, s1, s2);
      SamePool(s2, s3, e);
      hide PoolKept;
      PoolKeptTrans(s, s2, e);
    }
    hide PoolKept;
    EmptyPool(s, e, s.epoch);
  }

  lemma SamePool(s: State, t: State, u: State)
    requires PoolKept(t, u) && s.orphans == t.orphans && s.freed == t.freed
    ensures PoolKept(s, u)
  {
  }

  /** A pool of old nodes out of which only newer ones can be left is empty. */
  lemma EmptyPool(s: State, e: State, limit: nat)
    requires PoolKept(s, e)
    requires forall q, n :: 0 <= q < 3 && n in s.orphans[q] ==> n.epoch <= limit
    requires forall q, n :: 0 <= q < 3 && n in e.orphans[q] ==> n.epoch > limit
    ensures e.orphans == [[], [], []] && forall q, n :: 0 <= q < 3 && n in s.orphans[q] ==> WasFreed(e, n)
  {
    hide WasFreed;
    forall q | 0 <= q < 3
      ensures e.orphans[q] == []
    {
      var l := e.orphans[q];
      assert forall n :: n in l ==> n in s.orphans[q] && n.epoch <= limit && n.epoch > limit;
      SomeIn(l);
    }
  }

  lemma SomeIn(l: seq<Node>)
    ensures l == [] || exists n :: n in l
  {
    if l != [] {
      assert l[0] in l;
    }
  }

  lemma SyncEnabled(s: State)
    ensures Enabled(s, SyncStart)
  {
  }

  lemma InvShaped(s: State)
    requires Inv(s)
    ensures Shaped(s)
  {
  }

  // -------------------------------------------------------------------------
  // A node that sync leaves
  // -------------------------------------------------------------------------

  /** The state with one more handle, and all else of s but the history of the pointer p. */
  predicate OneMore(s: State, t: State, v: Handle, p: Ptr) {
    && t.epoch == s.epoch && t.calls == s.calls && t.freed == s.freed && t.handles == s.handles + [v]
    && t.guards.Keys <= s.guards.Keys + {p} && Shaped(t)
  }

  lemma RetireOne(s: State, p: Ptr) returns (actions: seq<Action>, t: State)
    requires Shaped(s) && p !in s.guards
    ensures Leads(s, actions, t) && t.orphans == s.orphans
    ensures OneMore(s, t, NEW_HANDLE.(op := RetireLoaded(p, s.epoch), seen := s.epoch), p)
  {
    hide Leads;
    var h := |s.handles|;
    LeadsOne(s, Register);
    var s1 := Apply(s, Register);
    assert OneMore(s, s1, NEW_HANDLE, p);
    LeadsMore(s, [Register], s1, Unlink(p));
    var s2 := Apply(s1, Unlink(p));
    assert OneMore(s, s2, NEW_HANDLE, p);
    LeadsMore(s, [Register] + [Unlink(p)], s2, RetireBegin(h, p));
    var s3 := Apply(s2, RetireBegin(h, p));
    assert OneMore(s, s3, NEW_HANDLE.(op := RetireBegun(p)), p);
    LeadsMore(s, [Register] + [Unlink(p)] + [RetireBegin(h, p)], s3, RetireLoad(h));
    t := Apply(s3, RetireLoad(h));
    actions := [Register] + [Unlink(p)] + [RetireBegin(h, p)] + [RetireLoad(h)];
  }

  lemma OrphanIt(s: State, t: State, p: Ptr) returns (actions: seq<Action>, e: State)
    requires Shaped(s) && OneMore(s, t, NEW_HANDLE.(op := RetireLoaded(p, s.epoch), seen := s.epoch), p)
    requires t.orphans == s.orphans
    ensures Leads(t, actions, e) && OneMore(s, e, NEW_HANDLE.(registered := false, seen := s.epoch), p)
    ensures var q := s.epoch % 3; e.orphans == s.orphans[q := [Node(p, s.epoch)] + s.orphans[q]]
  {
    hide Leads;
    var h, q := |s.handles|, s.epoch % 3;
    var lists := [[], [], []][q := [Node(p, s.epoch)]];
    assert [Node(p, s.epoch)] + [] == [Node(p, s.epoch)];
    LeadsOne(t, RetirePush(h));
    var t1 := Apply(t, RetirePush(h));
    assert OneMore(s, t1, NEW_HANDLE.(op := Reclaim(s.epoch), seen := s.epoch, local := lists), p);
    LeadsMore(t, [RetirePush(h)], t1, Detach(h));
    var t2 := Apply(t1, Detach(h));
    assert lists[(s.epoch + 1) % 3] == [] && lists[(s.epoch + 1) % 3 := []] == lists;
    assert OneMore(s, t2, NEW_HANDLE.(op := Freeing([]), seen := s.epoch, local := lists), p);
    LeadsMore(t, [RetirePush(h)] + [Detach(h)], t2, FreeLocal(h));
    var t3 := Apply(t2, FreeLocal(h));
    assert OneMore(s, t3, NEW_HANDLE.(seen := s.epoch, local := lists), p);
    LeadsMore(t, [RetirePush(h)] + [Detach(h)] + [FreeLocal(h)], t3, Unregister(h));
    e := Apply(t3, Unregister(h));
    SplicedOne(lists, s.orphans, q, Node(p, s.epoch));
    actions := [RetirePush(h)] + [Detach(h)] + [FreeLocal(h)] + [Unregister(h)];
  }

  lemma SplicedOne(lists: seq<seq<Node>>, orphans: seq<seq<Node>>, q: nat, n: Node)
    requires |orphans| == 3 && q < 3 && lists == [[], [], []][q := [n]]
    ensures Spliced(lists, orphans) == orphans[q := [n] + orphans[q]]
  {
    forall i | 0 <= i < 3
      ensures Spliced(lists, orphans)[i] == if i == q then [n] + orphans[i] else orphans[i]
    {
      assert Spliced(lists, orphans)[i] == lists[i] + orphans[i];
      assert [] + orphans[i] == orphans[i];
    }
  }

  /** Four advances that stop before their flush, a sync that begins after the first, an orphan of the third epoch. */
  lemma SyncAboutToFlush() returns (actions: seq<Action>, d: State)
    ensures Leads(Init(), actions, d) && Shaped(d) && d.epoch == 4 && |d.calls| == 5 && d.freed == []
    ensures d.calls[0] == Flush(2, 2, 0) && d.calls[1] == SyncWaiting(4) && d.orphans == [[], [], [Node(7, 2)]]
  {
    hide Leads;
    hide Apply;
    hide Blocked;
    var s0 := Init();
    assert Shaped(s0);
    assert !Blocked(s0, 0, 0) by { NoneBlock(s0, 0); }
    var a1 := RaiseAlone(s0);
    var s1 := Raising(s0);
    SyncEnabled(s1);
    LeadsOne(s1, SyncStart);
    SyncBegins(s1);
    var s2 := Apply(s1, SyncStart);
    LeadsJoin(s0, a1, s1, [SyncStart], s2);
    NoneBlock(s2, 1);
    var a3 := RaiseAlone(s2);
    var s3 := Raising(s2);
    LeadsJoin(s0, a1 + [SyncStart], s2, a3, s3);
    actions := a1 + [SyncStart] + a3;
    var a4, s4 := RetireOne(s3, 7);
    LeadsJoin(s0, actions, s3, a4, s4);
    var a5, s5 := OrphanIt(s3, s4, 7);
    LeadsJoin(s0, actions + a4, s4, a5, s5);
    actions := actions + a4 + a5;
    assert [Node(7, 2)] + [] == [Node(7, 2)];
    NoneBlock(s5, 2);
    var a6 := RaiseAlone(s5);
    var s6 := Raising(s5);
    LeadsJoin(s0, actions, s5, a6, s6);
    actions := actions + a6;
    NoneBlock(s6, 3);
    var a7 := RaiseAlone(s6);
    d := Raising(s6);
    LeadsJoin(s0, actions, s6, a7, d);
    actions := actions + a7;
  }

  lemma NoneBlock(s: State, g: nat)
    requires NoneActive(s)
    ensures !Blocked(s, |s.handles|, g)
  {
  }

  /**
   A node that was in the pool when a sync began to flush can be there after it, though its epoch is not above the
   target less two: a flush that another advance put off takes it out and puts it back when the sync is over.
   */
  lemma SyncCanLeaveOne() returns (before: seq<Action>, d: State, after: seq<Action>, e: State)
    ensures Leads(Init(), before, d) && Enabled(d, SyncDone(1)) && Node(7, 2).epoch + 2 <= d.calls[1].target
    ensures |d.orphans| == 3 && Node(7, 2) in d.orphans[2]
    ensures Leads(d, [SyncDone(1)] + after, e) && |e.calls| == 5 && e.calls[1].Finished?
    ensures |e.orphans| == 3 && Node(7, 2) in e.orphans[2]
  {
    hide Leads;
    hide Apply;
    hide Shaped;
    before, d := SyncAboutToFlush();
    SyncTurns(d, 1);
    LeadsOne(d, SyncDone(1));
    var d1 := Apply(d, SyncDone(1));
    var d2 := TakeOne(d1, Node(7, 2));
    LeadsJoin(d, [SyncDone(1)], d1, [OrphanDetach(0)], d2);
    var flush, d3 := ThreeFlushes(d2, 1);
    LeadsJoin(d, [SyncDone(1)] + [OrphanDetach(0)], d2, flush, d3);
    var soFar := [SyncDone(1)] + [OrphanDetach(0)] + flush;
    e := PutBack(d3, Node(7, 2));
    LeadsJoin(d, soFar, d3, [OrphanSplit(0)] + [OrphanAttach(0)], e);
    after := [OrphanDetach(0)] + flush + ([OrphanSplit(0)] + [OrphanAttach(0)]);
    assert soFar + ([OrphanSplit(0)] + [OrphanAttach(0)]) == [SyncDone(1)] + after;
  }

  lemma TakeOne(s: State, n: Node) returns (t: State)
    requires Shaped(s) && |s.calls| > 0 && s.calls[0] == Flush(2, 2, 0) && s.orphans[2] == [n]
    ensures Leads(s, [OrphanDetach(0)], t) && Shaped(t)
    ensures t.calls == s.calls[0 := Splitting(2, 2, 0, [n], [])]
  {
    hide Leads;
    LeadsOne(s, OrphanDetach(0));
    t := Apply(s, OrphanDetach(0));
    ShapedCall(s.(orphans := t.orphans), 0, t.calls[0]);
  }

  lemma PutBack(s: State, n: Node) returns (t: State)
    requires Shaped(s) && |s.calls| > 0 && s.calls[0] == Splitting(2, 2, 0, [n], []) && n.epoch > 0
    ensures Leads(s, [OrphanSplit(0)] + [OrphanAttach(0)], t)
    ensures t.calls == s.calls[0 := Finished] && |t.orphans| == 3 && n in t.orphans[2]
  {
    hide Leads;
    LeadsOne(s, OrphanSplit(0));
    var m := Apply(s, OrphanSplit(0));
    assert m.calls[0] == Splitting(2, 2, 0, [], [n]);
    assert Shaped(m) by { ShapedCall(s, 0, m.calls[0]); }
    LeadsMore(s, [OrphanSplit(0)], m, OrphanAttach(0));
    t := Apply(m, OrphanAttach(0));
  }

  // -------------------------------------------------------------------------
  // Handles
  // -------------------------------------------------------------------------

  /** What the three lists of a handle or of the pool hold together. */
  predicate InSome(lists: seq<seq<Node>>, n: Node) {
    exists i :: 0 <= i < |lists| && n in lists[i]
  }

  /** A new or reused handle is registered, in no section, and empty; what it held is in the pool. */
  lemma RegistrationMeans(s: State, a: Action)
    requires Inv(s) && Enabled(s, a) && (a.Register? || a.Reuse? || a.Unregister?)
    ensures var s', h := Apply(s, a), if a.Register? then |s.handles| else a.h;
      && h < |s'.handles| && !s'.handles[h].active && s'.handles[h].op == Idle && s'.handles[h].local == [[], [], []]
      && s'.handles[h].registered == !a.Unregister?
      && (forall n :: InSome(s'.orphans, n) <==>
            InSome(s.orphans, n) || (!a.Register? && InSome(s.handles[a.h].local, n)))
  {
    hide CallOk;
    hide ListOk;
    hide OpOk;
    hide GuardsOk;
    if !a.Register? {
      assert HandleOk(s, s.handles[a.h]);
      var s', local := Apply(s, a), s.handles[a.h].local;
      forall n
        ensures InSome(s'.orphans, n) <==> InSome(s.orphans, n) || InSome(local, n)
      {
        SplicedHolds(local, s.orphans, n);
      }
    }
  }

  lemma SplicedHolds(local: seq<seq<Node>>, orphans: seq<seq<Node>>, n: Node)
    requires |local| == 3 && |orphans| == 3
    ensures InSome(Spliced(local, orphans), n) <==> InSome(orphans, n) || InSome(local, n)
  {
    var both := Spliced(local, orphans);
    forall i | 0 <= i < 3
      ensures n in both[i] <==> n in local[i] || n in orphans[i]
    {
      assert both[i] == local[i] + orphans[i];
    }
  }

  lemma LoadedBefore(s: State, a: Action, h: nat)
    requires Shaped(s) && Enabled(s, a) && h < |Apply(s, a).handles| && Apply(s, a).handles[h].op.EnterLoaded?
    ensures h < |s.handles|
    ensures a == EnterLoad(h) ==> Apply(s, a).handles[h].op.g == s.epoch
    ensures a != EnterLoad(h) ==> s.handles[h].op == Apply(s, a).handles[h].op
  {
  }

  /** The epoch a handle is about to announce is the one it read. */
  lemma {:induction false} LoadedAt(states: seq<State>, actions: seq<Action>, j: nat, h: nat) returns (i: nat)
    requires IsRun(states, actions) && j < |states| && h < |states[j].handles| && states[j].handles[h].op.EnterLoaded?
    ensures i < j && actions[i] == EnterLoad(h) && states[i].epoch == states[j].handles[h].op.g
    ensures forall m :: i < m <= j ==> h < |states[m].handles| && states[m].handles[h].op == states[j].handles[h].op
    decreases j
  {
    hide Apply;
    hide Enabled;
    assert j > 0;
    var s, a := states[j - 1], actions[j - 1];
    assert Shaped(s) && Enabled(s, a) && states[j - 1 + 1] == Apply(s, a);
    LoadedBefore(s, a, h);
    if a == EnterLoad(h) {
      i := j - 1;
    } else {
      i := LoadedAt(states, actions, j - 1, h);
    }
  }

  /** In every run a section is announced with the epoch that its entry read, however long ago that was. */
  lemma Announces(states: seq<State>, actions: seq<Action>, j: nat, h: nat) returns (i: nat)
    requires IsRun(states, actions) && j < |actions| && actions[j] == EnterStore(h)
    ensures i < j && actions[i] == EnterLoad(h) && h < |states[j + 1].handles|
    ensures states[j + 1].handles[h].active && states[j + 1].handles[h].announced == states[i].epoch
  {
    assert Shaped(states[j]) && Enabled(states[j], actions[j]) && states[j + 1] == Apply(states[j], actions[j]);
    i := LoadedAt(states, actions, j, h);
  }

  /** A section that is left announces nothing any more, and one that is not left keeps its announcement. */
  lemma LeavesOrKeeps(s: State, a: Action, h: nat)
    requires Inv(s) && Enabled(s, a) && h < |s.handles| && s.handles[h].active
    ensures h < |Apply(s, a).handles|
    ensures Leaves(a, h) <==> !Apply(s, a).handles[h].active
    ensures !Leaves(a, h) ==> Apply(s, a).handles[h].announced == s.handles[h].announced
  {
    hide Inv;
    hide Apply;
    hide Enabled;
    ActiveMeans(s, h);
    if OnHandle(a) && a.h == h {
      OwnStep(s, a);
    } else {
      OthersKeep(s, a, h);
    }
  }

  lemma ActiveMeans(s: State, h: nat)
    requires Inv(s) && h < |s.handles| && s.handles[h].active
    ensures Shaped(s) && s.handles[h].registered && !s.handles[h].op.EnterLoaded?
  {
    assert HandleOk(s, s.handles[h]);
  }

  lemma OwnStep(s: State, a: Action)
    requires Shaped(s) && Enabled(s, a) && OnHandle(a) && s.handles[a.h].active && s.handles[a.h].registered
    requires s.handles[a.h].op.EnterLoaded? ==> !s.handles[a.h].active
    ensures a.h < |Apply(s, a).handles|
    ensures Leaves(a, a.h) <==> !Apply(s, a).handles[a.h].active
    ensures !Leaves(a, a.h) ==> Apply(s, a).handles[a.h].announced == s.handles[a.h].announced
  {
  }

  lemma OthersKeep(s: State, a: Action, h: nat)
    requires Shaped(s) && Enabled(s, a) && h < |s.handles| && !(OnHandle(a) && a.h == h)
    ensures h < |Apply(s, a).handles| && Apply(s, a).handles[h] == s.handles[h]
  {
  }

  /**
   A detach at epoch g hands over exactly the nodes whose epoch leaves the same remainder by three as g + 1, and leaves
   the others.
   */
  lemma DetachHandsOver(s: State, h: nat, n: Node)
    requires Inv(s) && Enabled(s, Detach(h))
    ensures var v, v' := s.handles[h], Apply(s, Detach(h)).handles[h];
      && v'.op.Freeing?
      && (n in v'.op.dying <==> InSome(v.local, n) && n.epoch % 3 == (v.op.g + 1) % 3)
      && (InSome(v'.local, n) <==> InSome(v.local, n) && n.epoch % 3 != (v.op.g + 1) % 3)
  {
    hide CallOk;
    hide GuardsOk;
    hide Guarded;
    var v := s.handles[h];
    assert HandleOk(s, v);
    forall i | 0 <= i < 3 && n in v.local[i]
      ensures n.epoch % 3 == i
    {
      assert ListOk(s, v.local[i], i, v.seen);
    }
    var slot := (v.op.g + 1) % 3;
    var rest := v.local[slot := []];
    assert InSome(rest, n) ==> exists i :: 0 <= i < 3 && i != slot && n in v.local[i];
    if i :| 0 <= i < 3 && n in v.local[i] && i != slot {
      assert n in rest[i];
    }
  }

  ghost predicate Dying(s: State, h: nat, n: Node) {
    h < |s.handles| && ((s.handles[h].op.Freeing? && n in s.handles[h].op.dying) || WasFreed(s, n))
  }

  lemma DyingStep(s: State, a: Action, h: nat, n: Node)
    requires Shaped(s) && Enabled(s, a) && Dying(s, h, n)
    requires s.handles[h].op.Freeing? ==> s.handles[h].registered
    ensures Dying(Apply(s, a), h, n)
  {
    if WasFreed(s, n) {
      FreedStays(s, a, n);
      HandlesStay(s, a);
    } else {
      var l := s.handles[h].op.dying;
      if a == FreeLocal(h) {
        assert l == [l[0]] + l[1..];
        if n == l[0] {
          assert Freed(n.ptr, n.epoch, s.epoch) in Apply(s, a).freed;
        }
      }
    }
  }

  lemma HandlesStay(s: State, a: Action)
    requires Shaped(s) && Enabled(s, a)
    ensures |s.handles| <= |Apply(s, a).handles|
  {
  }

  lemma {:induction false} DyingLong(states: seq<State>, actions: seq<Action>, i: nat, j: nat, h: nat, n: Node)
    requires IsRun(states, actions) && i <= j < |states| && Dying(states[i], h, n)
    ensures Dying(states[j], h, n)
    decreases j
  {
    if i < j {
      DyingLong(states, actions, i, j - 1, h, n);
      RunInv(states, actions, j - 1);
      hide Apply;
      hide Enabled;
      hide ListOk;
      hide CallOk;
      hide OpOk;
      hide GuardsOk;
      assert HandleOk(states[j - 1], states[j - 1].handles[h]);
      DyingStep(states[j - 1], actions[j - 1], h, n);
      assert states[j - 1 + 1] == Apply(states[j - 1], actions[j - 1]);
    }
  }

  /** In every run, what a detach handed over has been freed by the time the handle is idle again. */
  lemma HandedOverIsFreed(states: seq<State>, actions: seq<Action>, i: nat, j: nat, h: nat, n: Node)
    requires IsRun(states, actions) && i < j < |states| && actions[i] == Detach(h) && h < |states[i].handles|
    requires h < |states[j].handles| && states[j].handles[h].op.Idle? && states[i].handles[h].op.Reclaim?
    requires InSome(states[i].handles[h].local, n) && n.epoch % 3 == (states[i].handles[h].op.g + 1) % 3
    ensures WasFreed(states[j], n)
  {
    RunInv(states, actions, i);
    hide Inv;
    hide Apply;
    assert Enabled(states[i], actions[i]) && states[i + 1] == Apply(states[i], actions[i]);
    DetachHandsOver(states[i], h, n);
    HandlesStay(states[i], actions[i]);
    DyingLong(states, actions, i + 1, j, h, n);
  }

  // -------------------------------------------------------------------------
  // Nothing gets stuck
  // -------------------------------------------------------------------------

  /** Every call that has not ended can take a step, unless it is a sync that waits for the epoch. */
  lemma CallCanStep(s: State, k: nat) returns (a: Action)
    requires Inv(s) && k < |s.calls| && !s.calls[k].Finished?
    requires s.calls[k].SyncWaiting? ==> s.epoch >= s.calls[k].target
    ensures Enabled(s, a) && OnCall(a) && a.k == k
  {
    hide HandleOk;
    hide ListOk;
    hide GuardsOk;
    assert CallOk(s, s.calls[k]);
    match s.calls[k] {
      case AdvanceLoaded(_) => a := AdvanceHead(k);
      case Scanning(_, cur) => a := if cur == 0 then AdvanceCas(k) else ScanRegistered(k);
      case SawRegistered(_, _) => a := ScanActive(k);
      case SyncWaiting(_) => a := SyncDone(k);
      case Flush(_, _, _) => a := OrphanDetach(k);
      case Splitting(_, _, _, todo, _) => a := if todo == [] then OrphanAttach(k) else OrphanSplit(k);
    }
  }

  /** Every handle with an operation under way can take its next step. */
  lemma HandleCanStep(s: State, h: nat) returns (a: Action)
    requires Inv(s) && h < |s.handles| && !s.handles[h].op.Idle?
    ensures Enabled(s, a) && OnHandle(a) && a.h == h
  {
    hide CallOk;
    hide ListOk;
    hide OpOk;
    hide GuardsOk;
    assert HandleOk(s, s.handles[h]);
    match s.handles[h].op {
      case EnterLoaded(_) => a := EnterStore(h);
      case ExitCleared => a := ExitLoad(h);
      case RetireBegun(_) => a := RetireLoad(h);
      case RetireLoaded(_, _) => a := RetirePush(h);
      case Reclaim(_) => a := Detach(h);
      case Freeing(_) => a := FreeLocal(h);
    }
  }
}
