/**
 The Pike machine. It advances all threads in lockstep over the text, keeps at most one thread per
 instruction and position, and follows non-consuming instructions as soon as a thread is added.

 `PikeVm.Run` is proved to find a match exactly when some single thread could have run to one.
 */
module RegexVm {
  import opened RegexSyntax
  import opened RegexCompiler
  import opened RegexProgram

  datatype Thread = Thread(pc: nat, slots: Slots)

  /** The generation counter is a 32-bit integer. */
  const GENERATIONS := 0x1_0000_0000

  predicate Consuming(inst: Inst) {
    inst.IChar? || inst.IAny? || inst.IClass?
  }

  /** At this position the instruction at `pc` hands over to `pc'` without consuming. */
  predicate Eps(p: seq<Inst>, x: Subject, pos: nat, pc: nat, pc': nat) {
    pc < |p| && pos <= |x.text| &&
    match p[pc]
    case IJump(target) => pc' == target
    case ISplit(t1, t2) => pc' == t1 || pc' == t2
    case ISave(_) => pc' == pc + 1
    case IBol => AtBol(x, pos) && pc' == pc + 1
    case IEol => AtEol(x, pos) && pc' == pc + 1
    case IWordBoundary(negate) => AtWordBoundary(x, pos) != negate && pc' == pc + 1
    case _ => false
  }

  /** Some run from the entry point leads to this thread at this position. */
  ghost predicate Reached(p: seq<Inst>, x: Subject, entry: nat, pos: nat, t: Thread) {
    exists n: nat :: Reaches(p, x, entry, n, Conf(t.pc, pos, t.slots))
  }

  lemma ReachedStep(p: seq<Inst>, x: Subject, entry: nat, pos: nat, t: Thread, pos': nat, t': Thread)
    requires Reached(p, x, entry, pos, t) && Step(p, x, Conf(t.pc, pos, t.slots), Conf(t'.pc, pos', t'.slots))
    ensures Reached(p, x, entry, pos', t')
  {
    hide Runs;
    var n: nat :| Reaches(p, x, entry, n, Conf(t.pc, pos, t.slots));
    RunsSnoc(p, x, 0, |p|, 0, |p|, n,
             Conf(entry, 0, NoCaptures()), Conf(t.pc, pos, t.slots), Conf(t'.pc, pos', t'.slots));
    assert Reaches(p, x, entry, n + 1, Conf(t'.pc, pos', t'.slots));
  }

  /** The threads a non-consuming instruction continues as, the preferred one first. */
  function Forward(p: seq<Inst>, x: Subject, pos: nat, t: Thread): seq<Thread>
    requires t.pc < |p| && pos <= |x.text|
  {
    var next := Thread(t.pc + 1, t.slots);
    match p[t.pc]
    case IJump(target) => [t.(pc := target)]
    case ISplit(t1, t2) => [t.(pc := t1), t.(pc := t2)]
    case ISave(slot) => [Thread(t.pc + 1, Save(t.slots, slot, pos))]
    case IBol => if AtBol(x, pos) then [next] else []
    case IEol => if AtEol(x, pos) then [next] else []
    case IWordBoundary(negate) => if AtWordBoundary(x, pos) != negate then [next] else []
    case _ => []
  }

  lemma ForwardReached(p: seq<Inst>, x: Subject, entry: nat, pos: nat, t: Thread, i: nat)
    requires t.pc < |p| && pos <= |x.text| && i < |Forward(p, x, pos, t)| && Reached(p, x, entry, pos, t)
    ensures Reached(p, x, entry, pos, Forward(p, x, pos, t)[i])
  {
    hide Reached;
    ReachedStep(p, x, entry, pos, t, pos, Forward(p, x, pos, t)[i]);
  }

  lemma ForwardComplete(p: seq<Inst>, x: Subject, pos: nat, t: Thread)
    requires t.pc < |p| && pos <= |x.text|
    ensures forall k: nat :: Eps(p, x, pos, t.pc, k) ==>
      exists i :: 0 <= i < |Forward(p, x, pos, t)| && Forward(p, x, pos, t)[i].pc == k
  {
    forall k: nat | Eps(p, x, pos, t.pc, k)
      ensures exists i :: 0 <= i < |Forward(p, x, pos, t)| && Forward(p, x, pos, t)[i].pc == k
    {
      var next := Forward(p, x, pos, t);
      if next[0].pc == k {
      } else {
        assert next[1].pc == k;
      }
    }
  }

  lemma NoForward(p: seq<Inst>, x: Subject, pos: nat, t: Thread)
    requires t.pc < |p| && (Consuming(p[t.pc]) || p[t.pc].IMatch?)
    ensures forall k: nat :: !Eps(p, x, pos, t.pc, k)
  {
  }

  // -------------------------------------------------------------------------
  // The instructions visited at each position cover all runs
  // -------------------------------------------------------------------------

  /** Everything added to `before` has its non-consuming successors in `after`. */
  ghost predicate Closed(p: seq<Inst>, x: Subject, pos: nat, before: set<nat>, after: set<nat>) {
    forall k: nat, k': nat :: k in after && k !in before && Eps(p, x, pos, k, k') && k' < |p| ==> k' in after
  }

  /** Every consuming instruction added to `before` has a thread in the list. */
  ghost predicate Listed(p: seq<Inst>, list: seq<Thread>, before: set<nat>, after: set<nat>) {
    forall k :: k in after && k !in before && k < |p| && Consuming(p[k]) ==> exists u :: u in list && u.pc == k
  }

  lemma NothingAdded(p: seq<Inst>, x: Subject, pos: nat, list: seq<Thread>, seen: set<nat>)
    ensures Closed(p, x, pos, seen, seen) && Listed(p, list, seen, seen)
  {
  }

  /** One instruction more has been visited, and its successors too. */
  lemma OneAdded(p: seq<Inst>, x: Subject, pos: nat, list: seq<Thread>, pc: nat, before: set<nat>, after: set<nat>)
    requires Closed(p, x, pos, before + {pc}, after) && Listed(p, list, before + {pc}, after)
    requires forall k: nat :: Eps(p, x, pos, pc, k) && k < |p| ==> k in after
    requires pc < |p| && Consuming(p[pc]) ==> exists u :: u in list && u.pc == pc
    ensures Closed(p, x, pos, before, after) && Listed(p, list, before, after)
  {
    hide Eps;
  }

  /** Whatever accepts the byte at `pos` in one level continues in the next. */
  ghost predicate Advances(p: seq<Inst>, x: Subject, pos: nat, level: set<nat>, next: set<nat>) {
    pos < |x.text| &&
    forall k :: k in level && k < |p| && Consumes(p[k], x.text[pos]) && k + 1 < |p| ==> k + 1 in next
  }

  /** One set of visited instructions per text position, closed under everything a thread may do. */
  ghost predicate Levels(p: seq<Inst>, x: Subject, entry: nat, levels: seq<set<nat>>) {
    && 0 < |levels| <= |x.text| + 1
    && (entry < |p| ==> entry in levels[0])
    && (forall q :: 0 <= q < |levels| ==> Closed(p, x, q, {}, levels[q]))
    && (forall q :: 0 <= q < |levels| - 1 ==> Advances(p, x, q, levels[q], levels[q + 1]))
  }

  /** Nothing continues past the last level: the text is exhausted or no instruction there consumes. */
  ghost predicate Final(p: seq<Inst>, x: Subject, levels: seq<set<nat>>) {
    |levels| == |x.text| + 1 ||
    (|levels| > 0 && forall k :: k in levels[|levels| - 1] && k < |p| ==> !Consuming(p[k]))
  }

  lemma {:induction false} RunsForward(p: seq<Inst>, x: Subject, lo: nat, hi: nat, n: nat, a: Conf, b: Conf)
    requires Runs(p, x, lo, hi, n, a, b)
    ensures a.pos <= b.pos
    decreases n
  {
    if n > 0 {
      var c: Conf :| Step(p, x, a, c) && Runs(p, x, lo, hi, n - 1, c, b);
      RunsForward(p, x, lo, hi, n - 1, c, b);
    }
  }

  /** A run that starts in the levels stays in them, as far as they go. */
  lemma {:induction false} LevelsCover(p: seq<Inst>, x: Subject, entry: nat, levels: seq<set<nat>>, n: nat, a: Conf,
                                       b: Conf)
    requires Levels(p, x, entry, levels) && (b.pos < |levels| || Final(p, x, levels))
    requires Runs(p, x, 0, |p|, n, a, b) && b.pc < |p|
    requires a.pos < |levels| && a.pc < |p| && a.pc in levels[a.pos]
    ensures b.pos < |levels| && b.pc in levels[b.pos]
    decreases n
  {
    if n > 0 {
      var c: Conf :| Step(p, x, a, c) && Runs(p, x, 0, |p|, n - 1, c, b);
      RunsForward(p, x, 0, |p|, n - 1, c, b);
      StepInLevels(p, x, entry, levels, a, b.pos, c);
      LevelsCover(p, x, entry, levels, n - 1, c, b);
    }
  }

  lemma StepInLevels(p: seq<Inst>, x: Subject, entry: nat, levels: seq<set<nat>>, a: Conf, bound: nat, c: Conf)
    requires Levels(p, x, entry, levels) && (bound < |levels| || Final(p, x, levels)) && c.pos <= bound
    requires a.pos < |levels| && a.pc < |p| && a.pc in levels[a.pos]
    requires Step(p, x, a, c) && c.pc < |p|
    ensures c.pos < |levels| && c.pc in levels[c.pos]
  {
    if Consuming(p[a.pc]) {
      assert a.pos + 1 < |levels|;
      assert Advances(p, x, a.pos, levels[a.pos], levels[a.pos + 1]);
    } else {
      assert Closed(p, x, a.pos, {}, levels[a.pos]);
      assert Eps(p, x, a.pos, a.pc, c.pc);
    }
  }

  lemma EntryInLevels(p: seq<Inst>, x: Subject, entry: nat, levels: seq<set<nat>>, n: nat, b: Conf)
    requires Levels(p, x, entry, levels) && Final(p, x, levels)
    requires Reaches(p, x, entry, n, b) && b.pc < |p|
    ensures b.pos < |levels| && b.pc in levels[b.pos]
  {
    assert n > 0 ==> entry < |p|;
    hide Runs;
    LevelsCover(p, x, entry, levels, n, Conf(entry, 0, NoCaptures()), b);
  }

  lemma BeforeInLevels(p: seq<Inst>, x: Subject, entry: nat, levels: seq<set<nat>>, n: nat, b: Conf)
    requires Levels(p, x, entry, levels) && b.pos < |levels|
    requires Reaches(p, x, entry, n, b) && b.pc < |p|
    ensures b.pc in levels[b.pos]
  {
    assert n > 0 ==> entry < |p|;
    hide Runs;
    LevelsCover(p, x, entry, levels, n, Conf(entry, 0, NoCaptures()), b);
  }

  lemma NothingListed(p: seq<Inst>, x: Subject, levels: seq<set<nat>>)
    requires |levels| > 0 && Listed(p, [], {}, levels[|levels| - 1])
    ensures Final(p, x, levels)
  {
  }

  /** The next level, built from the listed threads, continues the levels so far. */
  lemma LevelsExtend(p: seq<Inst>, x: Subject, entry: nat, levels: seq<set<nat>>, list: seq<Thread>, next: set<nat>)
    requires Levels(p, x, entry, levels) && |levels| <= |x.text|
    requires Listed(p, list, {}, levels[|levels| - 1])
    requires forall u :: u in list ==> u.pc < |p|
    requires forall u :: u in list && Consumes(p[u.pc], x.text[|levels| - 1]) && u.pc + 1 < |p| ==> u.pc + 1 in next
    requires Closed(p, x, |levels|, {}, next)
    ensures Levels(p, x, entry, levels + [next])
  {
    hide Closed;
    var pos := |levels| - 1;
    assert Advances(p, x, pos, levels[pos], next) by {
      forall k | k in levels[pos] && k < |p| && Consumes(p[k], x.text[pos]) && k + 1 < |p| ensures k + 1 in next {
        var u :| u in list && u.pc == k;
      }
    }
  }

  lemma ConsumeReached(p: seq<Inst>, x: Subject, entry: nat, pos: nat, t: Thread)
    requires t.pc < |p| && pos < |x.text| && Consuming(p[t.pc]) && Consumes(p[t.pc], x.text[pos])
    requires Reached(p, x, entry, pos, t)
    ensures Reached(p, x, entry, pos + 1, Thread(t.pc + 1, t.slots))
  {
    hide Reached;
    ReachedStep(p, x, entry, pos, t, pos + 1, Thread(t.pc + 1, t.slots));
  }

  // -------------------------------------------------------------------------
  // The machine
  // -------------------------------------------------------------------------

  lemma {:induction false} BelowSize(s: set<nat>, n: nat)
    requires forall k :: k in s ==> k < n
    ensures |s| <= n
    decreases n
  {
    if n > 0 {
      var s' := s - {n - 1};
      BelowSize(s', n - 1);
      assert n - 1 in s ==> s == s' + {n - 1};
    } else {
      assert s == {};
    }
  }

  class PikeVm {
    const p: seq<Inst>
    const x: Subject
    const entry: nat
    const full: bool
    const visited: array<nat>
    var step: nat
    var matched: bool
    var best: Slots

    constructor (re: Program, x: Subject, entry: nat, full: bool)
      ensures this.p == re.insts && this.x == x && this.entry == entry && this.full == full
      ensures visited.Length == |p| && fresh(visited)
      ensures (forall k :: 0 <= k < |p| ==> visited[k] == 0) && step == 1 && !matched
    {
      this.p, this.x, this.entry, this.full := re.insts, x, entry, full;
      visited := new nat[|re.insts|](_ => 0);
      step, matched := 1, false;
      best := NoCaptures();
    }

    /** The instructions visited in the current generation. */
    ghost function Seen(): (s: set<nat>)
      reads this`step, visited
      requires visited.Length == |p|
      ensures |s| <= |p|
    {
      var s := set k: nat | k < |p| && visited[k] == step;
      BelowSize(s, |p|);
      s
    }

    /** Threads that a run can be in at this position, waiting for a byte. */
    ghost predicate Waiting(list: seq<Thread>, pos: nat) {
      forall u :: u in list ==> u.pc < |p| && Consuming(p[u.pc]) && Reached(p, x, entry, pos, u)
    }

    /** The slots of some run that got to the match and, when the whole text is wanted, read all of it. */
    ghost predicate Genuine(slots: Slots) {
      exists pos: nat, t: Thread ::
        Reached(p, x, entry, pos, t) && t.pc < |p| && p[t.pc].IMatch? && t.slots == slots
        && (full ==> pos == |x.text|)
    }

    /** Visiting a match instruction here decides the answer. */
    ghost predicate Decided(pos: nat, before: set<nat>, after: set<nat>)
      reads this`matched
    {
      forall k :: k in after && k !in before && k < |p| && p[k].IMatch? && (full ==> pos == |x.text|) ==> matched
    }

    /** In full-match mode every run to the match has recorded the whole run as capture 0. */
    ghost predicate Anchors() {
      full ==> forall n: nat, b: Conf :: Reaches(p, x, entry, n, b) && AtMatch(p, b) ==>
        b.slots[0] == 0 && b.slots[1] == b.pos
    }

    /** Some run gets to the match at this position with this start of capture 0. */
    ghost predicate StartsAt(pos: nat, start: int) {
      exists t: Thread :: Reached(p, x, entry, pos, t) && t.pc < |p| && p[t.pc].IMatch? && t.slots[0] == start
    }

    /** In a search a match once found is replaced only by one with the same start; a new one was found here. */
    ghost predicate KeepsStart(pos: nat, had: bool, start: int)
      reads this`matched, this`best
    {
      !full ==> (had ==> matched && best[0] == start) && (!had && matched ==> StartsAt(pos, best[0]))
    }

    method AddThread(list: seq<Thread>, t: Thread, pos: nat) returns (list': seq<Thread>)
      requires visited.Length == |p| && pos <= |x.text| && Anchors()
      requires Reached(p, x, entry, pos, t) && Waiting(list, pos) && |list| <= |Seen()|
      requires matched ==> Genuine(best)
      modifies this, visited
      ensures step == old(step) && old(Seen()) <= Seen() && |old(Seen())| <= |Seen()|
      ensures forall k :: 0 <= k < |p| ==> visited[k] == old(visited[k]) || visited[k] == step
      ensures t.pc < |p| ==> t.pc in Seen()
      ensures Closed(p, x, pos, old(Seen()), Seen())
      ensures list <= list' && Waiting(list', pos) && |list'| <= |Seen()|
      ensures Listed(p, list', old(Seen()), Seen())
      ensures Decided(pos, old(Seen()), Seen())
      ensures old(matched) ==> matched
      ensures matched ==> Genuine(best)
      ensures KeepsStart(pos, old(matched), old(best)[0])
      decreases |p| - |Seen()|, 0
    {
      hide Reached;
      hide Genuine;
      hide Eps;
      hide Forward;
      hide Anchors;
      hide StartsAt;
      hide Closed;
      hide Listed;
      list' := list;
      var pc := t.pc;
      ghost var seen0 := Seen();
      if pc >= |p| || visited[pc] == step {
        NothingAdded(p, x, pos, list, seen0);
        return;
      }
      visited[pc] := step;
      ghost var seen1 := Seen();
      assert seen1 == seen0 + {pc} && |seen1| == |seen0| + 1;
      if Consuming(p[pc]) {
        if |list| < |p| {
          list' := list + [t];
          assert list'[|list|] == t;
        }
        NoForward(p, x, pos, t);
        NothingAdded(p, x, pos, list', seen1);
      } else if p[pc].IMatch? {
        AcceptThread(t, pos);
        assert Seen() == seen1;
        NoForward(p, x, pos, t);
        NothingAdded(p, x, pos, list', seen1);
      } else {
        var next := Forward(p, x, pos, t);
        forall i | 0 <= i < |next|
          ensures Reached(p, x, entry, pos, next[i])
        {
          ForwardReached(p, x, entry, pos, t, i);
        }
        list' := AddAll(list, next, pos);
        ForwardComplete(p, x, pos, t);
      }
      OneAdded(p, x, pos, list', pc, seen0, Seen());
    }

    /** Adds threads one after the other. */
    method AddAll(list: seq<Thread>, next: seq<Thread>, pos: nat) returns (list': seq<Thread>)
      requires visited.Length == |p| && pos <= |x.text| && Anchors()
      requires (forall i :: 0 <= i < |next| ==> Reached(p, x, entry, pos, next[i]))
      requires Waiting(list, pos) && |list| <= |Seen()|
      requires matched ==> Genuine(best)
      modifies this, visited
      ensures step == old(step) && old(Seen()) <= Seen() && |old(Seen())| <= |Seen()|
      ensures forall k :: 0 <= k < |p| ==> visited[k] == old(visited[k]) || visited[k] == step
      ensures forall i :: 0 <= i < |next| && next[i].pc < |p| ==> next[i].pc in Seen()
      ensures Closed(p, x, pos, old(Seen()), Seen())
      ensures list <= list' && Waiting(list', pos) && |list'| <= |Seen()|
      ensures Listed(p, list', old(Seen()), Seen())
      ensures Decided(pos, old(Seen()), Seen())
      ensures old(matched) ==> matched
      ensures matched ==> Genuine(best)
      ensures KeepsStart(pos, old(matched), old(best)[0])
      decreases |p| - |Seen()|, 1
    {
      hide Reached;
      hide Genuine;
      hide Eps;
      hide Anchors;
      hide StartsAt;
      list' := list;
      for i := 0 to |next|
        invariant step == old(step) && old(Seen()) <= Seen() && |old(Seen())| <= |Seen()|
        invariant forall k :: 0 <= k < |p| ==> visited[k] == old(visited[k]) || visited[k] == step
        invariant forall j :: 0 <= j < i && next[j].pc < |p| ==> next[j].pc in Seen()
        invariant Closed(p, x, pos, old(Seen()), Seen())
        invariant list <= list' && Waiting(list', pos) && |list'| <= |Seen()|
        invariant Listed(p, list', old(Seen()), Seen())
        invariant Decided(pos, old(Seen()), Seen())
        invariant old(matched) ==> matched
        invariant matched ==> Genuine(best)
        invariant KeepsStart(pos, old(matched), old(best)[0])
      {
        list' := AddThread(list', next[i], pos);
      }
    }

    /** A thread has arrived at the match instruction. */
    method AcceptThread(t: Thread, pos: nat)
      requires pos <= |x.text| && Anchors() && Reached(p, x, entry, pos, t) && t.pc < |p| && p[t.pc].IMatch?
      requires matched ==> Genuine(best)
      modifies this`matched, this`best
      ensures old(matched) ==> matched
      ensures (full ==> pos == |x.text|) ==> matched
      ensures matched ==> Genuine(best)
      ensures KeepsStart(pos, old(matched), old(best)[0])
    {
      hide Runs;
      ghost var n: nat :| Reaches(p, x, entry, n, Conf(t.pc, pos, t.slots));
      assert AtMatch(p, Conf(t.pc, pos, t.slots));
      if full {
        if pos == |x.text| && t.slots[0] == 0 && t.slots[1] == |x.text| {
          matched := true;
          best := t.slots;
        }
      } else {
        if !matched || t.slots[0] == best[0] {
          matched := true;
          best := t.slots;
        }
      }
    }

    /** Start a new generation: nothing is visited in it yet. */
    method NextGeneration()
      requires visited.Length == |p| && 0 < step < GENERATIONS
      requires forall k :: 0 <= k < |p| ==> visited[k] <= step
      modifies this`step, visited
      ensures 0 < step < GENERATIONS && Seen() == {}
      ensures forall k :: 0 <= k < |p| ==> visited[k] <= step
    {
      step := (step + 1) % GENERATIONS;
      if step == 0 {
        for k := 0 to |p|
          invariant forall j :: 0 <= j < k ==> visited[j] == 0
        {
          visited[k] := 0;
        }
        step := 1;
      }
    }

    /** Feed the byte at `pos` to all waiting threads. */
    method Advance(clist: seq<Thread>, pos: nat) returns (nlist: seq<Thread>)
      requires visited.Length == |p| && pos < |x.text| && Anchors() && Waiting(clist, pos)
      requires 0 < step < GENERATIONS && forall k :: 0 <= k < |p| ==> visited[k] <= step
      requires matched ==> Genuine(best)
      modifies this, visited
      ensures 0 < step < GENERATIONS && forall k :: 0 <= k < |p| ==> visited[k] <= step
      ensures forall u :: u in clist && Consumes(p[u.pc], x.text[pos]) && u.pc + 1 < |p| ==> u.pc + 1 in Seen()
      ensures Closed(p, x, pos + 1, {}, Seen()) && Waiting(nlist, pos + 1) && Listed(p, nlist, {}, Seen())
      ensures Decided(pos + 1, {}, Seen())
      ensures old(matched) ==> matched
      ensures matched ==> Genuine(best)
      ensures KeepsStart(pos + 1, old(matched), old(best)[0])
    {
      hide Reached;
      hide Genuine;
      hide Eps;
      hide Consumes;
      hide StartsAt;
      NextGeneration();
      nlist := [];
      for i := 0 to |clist|
        invariant 0 < step < GENERATIONS && forall k :: 0 <= k < |p| ==> visited[k] <= step
        invariant forall j :: 0 <= j < i && Consumes(p[clist[j].pc], x.text[pos]) && clist[j].pc + 1 < |p| ==>
          clist[j].pc + 1 in Seen()
        invariant Closed(p, x, pos + 1, {}, Seen()) && Waiting(nlist, pos + 1) && Listed(p, nlist, {}, Seen())
        invariant |nlist| <= |Seen()|
        invariant Decided(pos + 1, {}, Seen())
        invariant old(matched) ==> matched
        invariant matched ==> Genuine(best)
        invariant KeepsStart(pos + 1, old(matched), old(best)[0])
      {
        var t := clist[i];
        assert t in clist;
        if Consumes(p[t.pc], x.text[pos]) {
          ConsumeReached(p, x, entry, pos, t);
          nlist := AddThread(nlist, Thread(t.pc + 1, t.slots), pos + 1);
        }
      }
    }

    /** The answer is yes exactly when a single thread could have run to the match. */
    method Run() returns (found: bool)
      requires visited.Length == |p| && Anchors() && step == 1 && !matched
      requires forall k :: 0 <= k < |p| ==> visited[k] == 0
      modifies this, visited
      ensures found <==> exists n: nat, b: Conf ::
        Reaches(p, x, entry, n, b) && AtMatch(p, b) && (full ==> b.pos == |x.text|)
      ensures found ==> Genuine(best)
      ensures found && !full ==> exists first: nat :: StartsAt(first, best[0]) && EndsFirst(first)
    {
      hide Runs;
      hide Closed;
      hide Listed;
      hide Genuine;
      hide StartsAt;
      hide EndsFirst;
      var clist: seq<Thread>;
      ghost var levels: seq<set<nat>>;
      clist, levels := Start();
      ghost var first: nat := 0;
      var pos := 0;
      while true
        invariant pos <= |x.text| && |levels| == pos + 1 && Levels(p, x, entry, levels)
        invariant Waiting(clist, pos) && Listed(p, clist, {}, levels[pos])
        invariant forall q :: 0 <= q <= pos ==> Decided(q, {}, levels[q])
        invariant matched ==> Genuine(best)
        invariant matched && !full ==> first <= pos && StartsAt(first, best[0]) && NoneBefore(levels, first)
        invariant 0 < step < GENERATIONS && forall k :: 0 <= k < |p| ==> visited[k] <= step
        decreases |x.text| - pos
      {
        if |clist| == 0 {
          NothingListed(p, x, levels);
          Undecided(levels);
          break;
        }
        if matched && !full {
          var sameStart := HasSameStart(clist);
          if !sameStart {
            break;
          }
        }
        if pos == |x.text| {
          Undecided(levels);
          break;
        }
        if !matched && !full {
          first := pos + 1;
          assert NoneBefore(levels, first);
        }
        ghost var before := levels;
        var nlist := Advance(clist, pos);
        LevelsExtend(p, x, entry, levels, clist, Seen());
        levels := levels + [Seen()];
        NoneStill(before, levels, first);
        clist := nlist;
        pos := pos + 1;
      }
      found := matched;
      if found {
        GenuineRun();
        if !full {
          NoneEndsBefore(levels, first);
        }
      }
    }

    /** No match instruction was visited before this position. */
    ghost predicate NoneBefore(levels: seq<set<nat>>, first: nat) {
      first <= |levels| && forall q, k :: 0 <= q < first && k in levels[q] && k < |p| ==> !p[k].IMatch?
    }

    lemma NoneStill(levels: seq<set<nat>>, levels': seq<set<nat>>, first: nat)
      requires levels <= levels'
      ensures NoneBefore(levels, first) ==> NoneBefore(levels', first)
    {
    }

    /** No run gets to the match before this position. */
    ghost predicate EndsFirst(first: nat) {
      forall n: nat, b: Conf :: Reaches(p, x, entry, n, b) && AtMatch(p, b) ==> first <= b.pos
    }

    lemma NoneEndsBefore(levels: seq<set<nat>>, first: nat)
      requires Levels(p, x, entry, levels) && NoneBefore(levels, first)
      ensures EndsFirst(first)
    {
      hide Levels;
      forall n: nat, b: Conf | Reaches(p, x, entry, n, b) && AtMatch(p, b)
        ensures first <= b.pos
      {
        if b.pos < first {
          BeforeInLevels(p, x, entry, levels, n, b);
        }
      }
    }

    /** Can some thread still extend the match found so far? */
    method HasSameStart(list: seq<Thread>) returns (found: bool)
      ensures found <==> exists u :: u in list && u.slots[0] == best[0]
    {
      for i := 0 to |list|
        invariant forall j :: 0 <= j < i ==> list[j].slots[0] != best[0]
      {
        if list[i].slots[0] == best[0] {
          return true;
        }
      }
      return false;
    }

    /** Threads waiting at position 0, and the instructions visited there. */
    method Start() returns (clist: seq<Thread>, ghost levels: seq<set<nat>>)
      requires visited.Length == |p| && Anchors() && step == 1 && !matched
      requires forall k :: 0 <= k < |p| ==> visited[k] == 0
      modifies this, visited
      ensures |levels| == 1 && Levels(p, x, entry, levels)
      ensures Waiting(clist, 0) && Listed(p, clist, {}, levels[0]) && Decided(0, {}, levels[0])
      ensures matched ==> Genuine(best)
      ensures matched && !full ==> StartsAt(0, best[0])
      ensures 0 < step < GENERATIONS && forall k :: 0 <= k < |p| ==> visited[k] <= step
    {
      hide Genuine;
      hide StartsAt;
      hide Eps;
      assert Reaches(p, x, entry, 0, Conf(entry, 0, NoCaptures()));
      hide Runs;
      assert Seen() == {};
      clist := AddThread([], Thread(entry, NoCaptures()), 0);
      levels := [Seen()];
    }

    /** Once the levels are final, a run to the match would have been noticed. */
    lemma Undecided(levels: seq<set<nat>>)
      requires Levels(p, x, entry, levels) && Final(p, x, levels)
      requires forall q :: 0 <= q < |levels| ==> Decided(q, {}, levels[q])
      ensures (exists n: nat, b: Conf ::
        Reaches(p, x, entry, n, b) && AtMatch(p, b) && (full ==> b.pos == |x.text|)) ==> matched
    {
      hide Runs;
      hide Levels;
      hide Final;
      if n: nat, b: Conf :| Reaches(p, x, entry, n, b) && AtMatch(p, b) && (full ==> b.pos == |x.text|) {
        EntryInLevels(p, x, entry, levels, n, b);
        assert Decided(b.pos, {}, levels[b.pos]);
      }
    }

    lemma GenuineRun()
      requires Genuine(best)
      ensures exists n: nat, b: Conf :: Reaches(p, x, entry, n, b) && AtMatch(p, b) && (full ==> b.pos == |x.text|)
    {
      hide Runs;
      var pos: nat, t: Thread :| Reached(p, x, entry, pos, t) && t.pc < |p| && p[t.pc].IMatch? && t.slots == best &&
        (full ==> pos == |x.text|);
      var n: nat :| Reaches(p, x, entry, n, Conf(t.pc, pos, t.slots));
      assert AtMatch(p, Conf(t.pc, pos, t.slots));
    }
  }
}
