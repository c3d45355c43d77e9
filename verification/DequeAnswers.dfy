/**
 When the operations of the work-stealing deque succeed, and what each does that nothing disturbs.
 */
module DequeAnswers {
  import opened Basics
  import Ring
  import opened WorkStealing

  /** A push is refused exactly if every slot is in use. */
  lemma PushRefused(s: State, task: Task)
    requires Inv(s) && Enabled(s, Push(task))
    ensures Next(s, Push(task)) == s <==> s.bottom == s.top + |s.slots|
    ensures s.bottom != s.top + |s.slots| ==> Next(s, Push(task)) == s.(owner := PushFn(s.bottom, task))
  {
    hide Ring.Slot;
    hide SlotsOk;
    hide Conserved;
  }

  /** A pop goes after a task exactly if the top it reads is not above the bottom it has taken; else it gives up. */
  lemma PopFindsEmpty(s: State)
    requires Inv(s) && Enabled(s, LoadTop)
    ensures Next(s, LoadTop).owner.Restore? <==> s.top == s.bottom + 1
    ensures Next(s, LoadTop).owner.PopFn? <==> s.top <= s.bottom
  {
    hide Ring.Slot;
    hide SlotsOk;
    hide Conserved;
  }

  /** A steal gives up at once exactly if the top it has read is not below the bottom. */
  lemma StealFindsEmpty(s: State, t: Tid)
    requires Enabled(s, ThiefBottom(t))
    ensures t !in Next(s, ThiefBottom(t)).thieves <==> s.bottom <= s.thieves[t].t
    ensures s.thieves[t].t < s.bottom ==> Next(s, ThiefBottom(t)).thieves == s.thieves[t := StealFn(s.thieves[t].t)]
  {
    hide Ring.Slot;
  }

  /** A pop or a steal hands a task out exactly at its last step, if that step wins. */
  lemma HandsOutExactly(s: State, a: Action)
    requires Enabled(s, a)
    ensures HandsOut(s, a).Some? <==> a.ThiefCas? || (a.Finish? && (s.owner.t < s.owner.b || s.top == s.owner.t))
    ensures a.Finish? ==> s.owner.PopEnd?
  {
    hide Ring.Slot;
  }

  // ---------- an operation on its own ----------

  /** The actions lead from one state to the other. */
  ghost predicate Leads(s: State, actions: seq<Action>, z: State)
    decreases |actions|
  {
    if actions == [] then s == z
    else
      var n := |actions| - 1;
      exists m :: Leads(s, actions[..n], m) && Enabled(m, actions[n]) && z == Next(m, actions[n])
  }

  lemma LeadsNone(s: State)
    ensures Leads(s, [], s)
  {
  }

  lemma LeadsMore(s: State, actions: seq<Action>, m: State, a: Action)
    requires Leads(s, actions, m) && Enabled(m, a) && Inv(m)
    ensures Leads(s, actions + [a], Next(m, a)) && Inv(Next(m, a))
  {
    hide Inv;
    hide Next;
    hide Enabled;
    assert (actions + [a])[..|actions|] == actions;
    StepInv(m, a);
  }

  lemma HasSlots(s: State)
    requires Inv(s)
    ensures |s.slots| > 0
  {
  }

  /** A push on its own puts the task at the bottom, as the newest, unless every slot is in use. */
  lemma PushAlone(s: State, task: Task) returns (actions: seq<Action>, z: State)
    requires Inv(s) && s.owner == Ready
    ensures Leads(s, actions, z) && Inv(z) && z.owner == Ready && z.top == s.top && z.taken == s.taken
    ensures s.bottom < s.top + |s.slots| ==>
      z.bottom == s.bottom + 1 && z.pushed == s.pushed + [task] && z.number == s.number[s.bottom := |s.pushed|]
    ensures s.bottom >= s.top + |s.slots| ==> z == s
  {
    hide Inv;
    hide Leads;
    hide Ring.Slot;
    hide At;
    hide Put;
    HasSlots(s);
    LeadsNone(s);
    LeadsMore(s, [], s, Push(task));
    actions, z := [] + [Push(task)], Next(s, Push(task));
    if s.bottom < s.top + |s.slots| {
      LeadsMore(s, actions, z, StoreWord);
      actions, z := actions + [StoreWord], Next(z, StoreWord);
      LeadsMore(s, actions, z, StoreWord);
      actions, z := actions + [StoreWord], Next(z, StoreWord);
      LeadsMore(s, actions, z, StoreWord);
      actions, z := actions + [StoreWord], Next(z, StoreWord);
    }
  }

  /** The newest task, at the bottom, and the oldest, at the top, have their numbers. */
  lemma EndsNumbered(s: State)
    requires Inv(s) && s.top < Limit(s)
    ensures Limit(s) - 1 in s.number && s.number[Limit(s) - 1] < |s.pushed|
    ensures s.top in s.number && s.number[s.top] < |s.pushed|
  {
    hide Ring.Slot;
    hide At;
    hide Conserved;
    assert Live(s, s.top) && Live(s, Limit(s) - 1);
  }

  /** A pop on its own, with a task in the deque, hands out the newest one and leaves the others. */
  lemma PopAlone(s: State) returns (actions: seq<Action>, m: State, rest: seq<Action>, z: State)
    requires Inv(s) && s.owner == Ready && s.top < s.bottom
    ensures Leads(s, actions, m) && Inv(m) && Enabled(m, Finish) && s.bottom - 1 in s.number
    ensures s.number[s.bottom - 1] < |s.pushed|
    ensures HandsOut(m, Finish) == Some((s.pushed[s.number[s.bottom - 1]], s.number[s.bottom - 1]))
    ensures Leads(Next(m, Finish), rest, z) && rest == if s.top == s.bottom - 1 then [StoreBottom] else []
    ensures z.owner == Ready && z.thieves == s.thieves && z.pushed == s.pushed
    ensures z.bottom - z.top == s.bottom - s.top - 1
    ensures z.taken == s.taken + {s.number[s.bottom - 1]}
  {
    hide Inv;
    hide Leads;
    hide Ring.Slot;
    hide At;
    HasSlots(s);
    EndsNumbered(s);
    LeadsNone(s);
    LeadsMore(s, [], s, Pop);
    actions, m := [] + [Pop], Next(s, Pop);
    LeadsMore(s, actions, m, LoadTop);
    actions, m := actions + [LoadTop], Next(m, LoadTop);
    LeadsMore(s, actions, m, LoadWord);
    actions, m := actions + [LoadWord], Next(m, LoadWord);
    LeadsMore(s, actions, m, LoadWord);
    actions, m := actions + [LoadWord], Next(m, LoadWord);
    HandedOutOnce(m, Finish);
    rest, z := [], Next(m, Finish);
    LeadsNone(z);
    if s.top == s.bottom - 1 {
      StepInv(m, Finish);
      LeadsMore(z, rest, z, StoreBottom);
      rest, z := rest + [StoreBottom], Next(z, StoreBottom);
    }
  }

  /** A pop on its own of an empty deque changes nothing. */
  lemma PopEmptyAlone(s: State) returns (actions: seq<Action>)
    requires Inv(s) && s.owner == Ready && s.top >= s.bottom > 0
    ensures Leads(s, actions, s)
  {
    hide Leads;
    hide Ring.Slot;
    hide At;
    assert s.top == s.bottom;
    hide Inv;
    HasSlots(s);
    LeadsNone(s);
    LeadsMore(s, [], s, Pop);
    var m := Next(s, Pop);
    actions := [] + [Pop];
    LeadsMore(s, actions, m, LoadTop);
    actions, m := actions + [LoadTop], Next(m, LoadTop);
    LeadsMore(s, actions, m, StoreBottom);
    actions, m := actions + [StoreBottom], Next(m, StoreBottom);
  }

  /** A steal on its own hands out the oldest task, whatever the owner is in the middle of, or finds nothing. */
  lemma StealAlone(s: State, t: Tid) returns (actions: seq<Action>, m: State)
    requires Inv(s) && t !in s.thieves
    ensures Leads(s, actions, m) && Inv(m)
    ensures s.top >= s.bottom ==> m == s
    ensures s.top < s.bottom ==>
      && Enabled(m, ThiefCas(t)) && s.top in s.number && s.number[s.top] < |s.pushed|
      && HandsOut(m, ThiefCas(t)) == Some((s.pushed[s.number[s.top]], s.number[s.top]))
      && Next(m, ThiefCas(t)) == s.(top := s.top + 1, taken := s.taken + {s.number[s.top]})
  {
    hide Inv;
    hide Leads;
    hide Ring.Slot;
    hide At;
    HasSlots(s);
    LeadsNone(s);
    LeadsMore(s, [], s, Steal(t));
    actions, m := [] + [Steal(t)], Next(s, Steal(t));
    LeadsMore(s, actions, m, ThiefBottom(t));
    actions, m := actions + [ThiefBottom(t)], Next(m, ThiefBottom(t));
    if s.top < s.bottom {
      BelowLimit(s);
      EndsNumbered(s);
      LeadsMore(s, actions, m, ThiefWord(t));
      actions, m := actions + [ThiefWord(t)], Next(m, ThiefWord(t));
      LeadsMore(s, actions, m, ThiefWord(t));
      actions, m := actions + [ThiefWord(t)], Next(m, ThiefWord(t));
      HandedOutOnce(m, ThiefCas(t));
      assert Next(m, ThiefCas(t)).thieves == s.thieves;
    } else {
      assert m.thieves == s.thieves;
    }
  }

  lemma BelowLimit(s: State)
    requires Inv(s) && s.top < s.bottom
    ensures s.top < Limit(s)
  {
    hide Ring.Slot;
    hide SlotsOk;
    hide Conserved;
  }
}
