/**
 The hierarchical timing wheel: 256 slots of one millisecond, then three levels of 64 slots of 256 ms,
 16384 ms and 1048576 ms. A timer is filed by how far away it is, and refiled in a lower level when
 the hand reaches its slot.
 */
module TimingWheel {
  import opened AlarmClock
  import opened TimerScript

  const SLOTS := 448
  const MAX_WAIT := 10

  datatype Node = Node(expiry: nat, interval: nat, level: nat, slot: nat)

  type Nodes = map<Id, Node>
  type Slots = seq<seq<Id>>

  /** Milliseconds per slot. */
  function Width(level: nat): (w: nat)
    ensures w > 0
  {
    if level == 0 then 1 else if level == 1 then 256 else if level == 2 then 16384 else 1048576
  }

  predicate InRange(n: Node) {
    n.level <= 3 && n.slot < (if n.level == 0 then 256 else 64)
  }

  /** The index of a slot among all slots of all levels. */
  function Place(level: nat, slot: nat): nat {
    if level == 0 then slot else 192 + 64 * level + slot
  }

  function LevelFor(now: nat, expiry: nat): nat {
    if expiry <= now then 0
    else if expiry - now < 256 then 0
    else if expiry - now < 16384 then 1
    else if expiry - now < 1048576 then 2
    else 3
  }

  function SlotFor(now: nat, expiry: nat): nat {
    var level := LevelFor(now, expiry);
    if expiry <= now then now % 256
    else if level == 0 then expiry % 256
    else (expiry / Width(level)) % 64
  }

  function Refiled(now: nat, n: Node): Node {
    n.(level := LevelFor(now, n.expiry), slot := SlotFor(now, n.expiry))
  }

  /** The slot of a timer that is not overdue comes up when, and only when, the timer has to move or to fire. */
  predicate Timely(now: nat, n: Node) {
    && InRange(n)
    && (match n.level
        case 0 => now <= n.expiry <= now + 255 && n.slot == n.expiry % 256
        case 1 => n.slot == n.expiry / 256 % 64 && now / 256 < n.expiry / 256 <= now / 256 + 64
        case 2 => n.slot == n.expiry / 16384 % 64 && now / 16384 < n.expiry / 16384 <= now / 16384 + 64
        case _ => n.slot == n.expiry / 1048576 % 64 && now / 1048576 < n.expiry / 1048576)
  }

  /** The timer sits in a slot that is refiled at this tick. */
  predicate MustMove(now: nat, n: Node) {
    InRange(n) && n.level >= 1 && now % Width(n.level) == 0 && n.slot == now / Width(n.level) % 64 && now <= n.expiry
  }

  /** A timer about to be filed: it starts at the clock, or at the next tick if the hand has reached the clock. */
  function Fresh(now: nat, timeout: nat, interval: nat, clock: nat): Node {
    Node(Deadline(now, clock, timeout), interval, 0, 0)
  }

  lemma RefiledTimely(now: nat, n: Node)
    requires now <= n.expiry
    ensures Timely(now, Refiled(now, n))
  {
  }

  /** Whatever the tick leaves in a wrong place is in a slot that this tick refiles. */
  lemma TickMoves(now: nat, n: Node)
    requires Timely(now, n) && now < n.expiry
    ensures Timely(now + 1, n) || MustMove(now + 1, n)
  {
  }

  /** A timer that is due is in the slot under the hand, and everything in that slot is due. */
  lemma DueUnderHand(now: nat, n: Node)
    requires Timely(now, n)
    ensures n.expiry == now <==> (n.level == 0 && n.slot == now % 256)
  {
  }

  // ---------- filing ----------

  predicate NoRepeats(list: seq<Id>) {
    forall i, j :: 0 <= i < j < |list| ==> list[i] != list[j]
  }

  /** Every timer except those in `out` is in the list of its slot, once, and in no other list. */
  predicate Filed(nodes: Nodes, slots: Slots, out: set<Id>) {
    && |slots| == SLOTS
    && (forall id :: id in nodes && id !in out ==>
          InRange(nodes[id]) && id in slots[Place(nodes[id].level, nodes[id].slot)])
    && (forall p, id :: 0 <= p < SLOTS && id in slots[p] ==>
          id in nodes && id !in out && InRange(nodes[id]) && Place(nodes[id].level, nodes[id].slot) == p)
    && (forall p :: 0 <= p < SLOTS ==> NoRepeats(slots[p]))
  }

  lemma FileOne(nodes: Nodes, slots: Slots, out: set<Id>, id: Id, n: Node)
    requires Filed(nodes, slots, out) && (id in out || id !in nodes) && InRange(n)
    ensures var p := Place(n.level, n.slot);
      Filed(nodes[id := n], slots[p := slots[p] + [id]], out - {id})
  {
    var p := Place(n.level, n.slot);
    assert forall q :: 0 <= q < SLOTS ==> id !in slots[q];
    var nodes', slots', out' := nodes[id := n], slots[p := slots[p] + [id]], out - {id};
    forall k | k in nodes' && k !in out'
      ensures InRange(nodes'[k]) && k in slots'[Place(nodes'[k].level, nodes'[k].slot)]
    {
      if k == id {
        assert slots'[p][|slots[p]|] == id;
      } else {
        assert k in slots[Place(nodes[k].level, nodes[k].slot)];
        assert k in slots[p] ==> k in slots'[p];
      }
    }
  }

  lemma Drained(nodes: Nodes, slots: Slots, p: nat)
    requires Filed(nodes, slots, {}) && p < SLOTS
    ensures Filed(nodes, slots[p := []], Ids(slots[p]))
    ensures NoRepeats(slots[p])
    ensures forall id :: id in slots[p] <==>
      id in nodes && InRange(nodes[id]) && Place(nodes[id].level, nodes[id].slot) == p
  {
    var rest := slots[p := []];
    forall id | id in nodes && id !in Ids(slots[p])
      ensures id in rest[Place(nodes[id].level, nodes[id].slot)]
    {
      assert id in slots[Place(nodes[id].level, nodes[id].slot)];
    }
    forall q, id | 0 <= q < SLOTS && id in rest[q]
      ensures id in nodes && id !in Ids(slots[p]) && Place(nodes[id].level, nodes[id].slot) == q
    {
      assert id in slots[q];
    }
  }

  function Ids(list: seq<Id>): set<Id> {
    set i | 0 <= i < |list| :: list[i]
  }

  lemma RemoveOut(nodes: Nodes, slots: Slots, out: set<Id>, id: Id)
    requires Filed(nodes, slots, out) && id in out
    ensures Filed(nodes - {id}, slots, out - {id})
  {
  }

  // ---------- the wheel ----------

  function AlarmsOf(nodes: Nodes): map<Id, Alarm> {
    map id | id in nodes :: Alarm(nodes[id].expiry, nodes[id].interval)
  }

  predicate AllTimely(now: nat, nodes: Nodes, out: set<Id>) {
    forall id :: id in nodes && id !in out ==> Timely(now, nodes[id])
  }

  /** Of the timers with identities up to `last`, those that are left and not in `out` are as they were. */
  predicate Kept(before: Nodes, after: Nodes, last: Id, out: set<Id>) {
    forall id :: id in after && id <= last && id !in out ==> id in before && after[id] == before[id]
  }

  /** Every timer outside `due` is in the future, every timer in `due` is due now. */
  predicate Split(now: nat, nodes: Nodes, due: set<Id>) {
    && (forall id :: id in due ==> id in nodes)
    && (forall id :: id in nodes ==> now <= nodes[id].expiry && (nodes[id].expiry == now <==> id in due))
  }

  class Wheel {
    var now: nat
    var lastId: Id
    var nodes: Nodes
    const slots: array<seq<Id>>

    ghost predicate Filing(out: set<Id>)
      reads this, slots
    {
      Filed(nodes, slots[..], out) && forall id :: id in nodes ==> id <= lastId
    }

    /** Between two calls every timer is in the future and in its place. */
    ghost predicate Valid()
      reads this, slots
    {
      Filing({}) && AllTimely(now, nodes, {}) && Split(now, nodes, {})
    }

    ghost function Alarms(): Clock
      reads this
    {
      Clock(now, AlarmsOf(nodes))
    }

    constructor (start: nat)
      ensures Valid() && fresh(slots) && nodes == map[] && Alarms() == Clock(start, map[])
    {
      now := start;
      lastId := 0;
      nodes := map[];
      slots := new seq<Id>[SLOTS](_ => []);
    }

    /** Files a node that is in no list by the distance to its expiry. */
    method Insert(id: Id, n: Node, ghost out: set<Id>)
      requires Filing(out) && (id in out || id !in nodes) && id <= lastId && now <= n.expiry
      modifies this`nodes, slots
      ensures Filing(out - {id}) && nodes == old(nodes)[id := Refiled(now, n)]
      ensures Timely(now, nodes[id])
    {
      hide Filed;
      var filed := Refiled(now, n);
      RefiledTimely(now, n);
      var p := Place(filed.level, filed.slot);
      assert p < slots.Length by { SlotCount(nodes, slots[..], out); }
      FileOne(nodes, slots[..], out, id, filed);
      slots[p] := slots[p] + [id];
      assert slots[..] == old(slots[..])[p := old(slots[p]) + [id]];
      nodes := nodes[id := filed];
    }

    /** Refiles the timers of one slot of a higher level. */
    method Cascade(level: nat, slot: nat)
      requires 1 <= level <= 3 && slot < 64 && Filing({})
      requires forall id :: id in nodes ==> now <= nodes[id].expiry
      modifies this`nodes, slots
      ensures Filing({}) && Moved(now, old(nodes), nodes, level, slot)
    {
      hide Filed;
      var p := Place(level, slot);
      SlotCount(nodes, slots[..], {});
      AllInRange(nodes, slots[..]);
      Drained(nodes, slots[..], p);
      var list := slots[p];
      slots[p] := [];
      assert slots[..] == old(slots[..])[p := []];
      ghost var before := nodes;
      assert list[0..] == list;
      for i := 0 to |list|
        invariant Filing(Ids(list[i..])) && nodes.Keys == before.Keys
        invariant forall id :: id in before && id !in list[..i] ==> nodes[id] == before[id]
        invariant forall id :: id in list[..i] ==> id in before && nodes[id] == Refiled(now, before[id])
      {
        assert list[..i + 1] == list[..i] + [list[i]];
        assert list[i] !in list[..i];
        assert list[i] in Ids(list[i..]) by { assert list[i..][0] == list[i]; }
        assert Ids(list[i..]) - {list[i]} == Ids(list[i + 1..]) by { RestIds(list, i); }
        Insert(list[i], nodes[list[i]], Ids(list[i..]));
      }
      assert Ids(list[|list|..]) == {};
      assert list[..|list|] == list;
      assert Moved(now, before, nodes, level, slot) by { AllMoved(now, before, nodes, level, slot, list); }
    }

    /** One millisecond passes: timers whose slot comes up are refiled, so that all that is due is under the hand. */
    method Turn()
      requires Valid()
      modifies this`now, this`nodes, slots
      ensures now == old(now) + 1 && Filing({}) && AllTimely(now, nodes, {})
      ensures Staged(now, old(nodes), nodes, 3)
    {
      hide Filed;
      hide Timely;
      hide MustMove;
      hide Refiled;
      hide Staged;
      ghost var before := nodes;
      AllInRange(nodes, slots[..]);
      now := now + 1;
      StageNone(now, nodes);
      if now % 256 == 0 {
        var slot1 := now / 256 % 64;
        StageExpiry(now, before, nodes, 0);
        ghost var n0 := nodes;
        Cascade(1, slot1);
        StageNext(now, before, n0, nodes, 1);
        if slot1 == 0 {
          WholeTurns(now);
          var slot2 := now / 16384 % 64;
          StageExpiry(now, before, nodes, 1);
          ghost var n1 := nodes;
          Cascade(2, slot2);
          StageNext(now, before, n1, nodes, 2);
          if slot2 == 0 {
            StageExpiry(now, before, nodes, 2);
            ghost var n2 := nodes;
            Cascade(3, now / 1048576 % 64);
            StageNext(now, before, n2, nodes, 3);
          } else {
            StageSkip(now, before, nodes, 2);
          }
        } else {
          StageSkip(now, before, nodes, 1);
        }
      } else {
        StageSkip(now, before, nodes, 0);
      }
      StageDone(now - 1, before, nodes);
    }

    /** Gives a timer its identity and files it; `out` are the timers the running tick has yet to fire. */
    method Arm(timeout: nat, interval: nat, clock: nat, ghost out: set<Id>) returns (id: Id)
      requires Filing(out) && Split(now, nodes, out) && AllTimely(now, nodes, out)
      modifies this`nodes, this`lastId, slots
      ensures Filing(out) && Split(now, nodes, out) && AllTimely(now, nodes, out)
      ensures id != 0 && id == lastId == old(lastId) + 1 && id !in old(nodes)
      ensures nodes == old(nodes)[id := Refiled(now, Fresh(now, timeout, interval, clock))]
      ensures nodes[id].expiry == (if clock > now then clock else now + 1) + timeout && nodes[id].interval == interval
    {
      hide Filed;
      hide Timely;
      hide Refiled;
      lastId := lastId + 1;
      id := lastId;
      var n := Fresh(now, timeout, interval, clock);
      assert out - {id} == out;
      Insert(id, n, out);
      RefiledKeeps(now, n);
    }

    /** Carries out the commands of the callback of a timer in order; `deleted` says that it cancelled itself. */
    method RunCallback(id: Id, commands: seq<Command>, ghost due: set<Id>) returns (events: seq<Event>, deleted: bool)
      requires Filing(due) && Split(now, nodes, due) && AllTimely(now, nodes, due) && id in due
      modifies this`nodes, this`lastId, slots
      ensures Filing(due) && Split(now, nodes, due) && AllTimely(now, nodes, due)
      ensures id in nodes && nodes[id] == old(nodes[id]) && Kept(old(nodes), nodes, old(lastId), {})
      ensures var o := Obey(Firing(now, old(nodes), id, nodes[id], false), old(lastId), commands);
        events == o.events && Firing(now, nodes, id, nodes[id], deleted) == o.clock && lastId == o.last >= old(lastId)
    {
      hide Filed;
      hide Timely;
      hide AlarmsOf;
      hide Refiled;
      hide ObeyOne;
      hide Obey;
      hide Firing;
      ghost var last, n := lastId, nodes[id];
      ghost var fired := Firing(now, nodes, id, n, false);
      deleted := false;
      events := [];
      NoCommands(fired, last, commands);
      for j := 0 to |commands|
        invariant Filing(due) && Split(now, nodes, due) && AllTimely(now, nodes, due)
        invariant id in nodes && nodes[id] == n && last <= lastId && Kept(old(nodes), nodes, last, {})
        invariant Obey(fired, last, commands[..j]) == Outcome(events, Firing(now, nodes, id, n, deleted), lastId)
      {
        ghost var before, o := nodes, Obey(fired, last, commands[..j]);
        ObeyMore(fired, last, commands, j);
        match commands[j] {
          case ArmTimer(timeout, interval, clock) =>
            var k := Arm(timeout, interval, clock, due);
            events := events + [Event.Arm(k, nodes[k].expiry, interval)];
            ArmMeans(o, now, before, nodes, id, n, deleted, commands[j]);
          case CancelTimer(k) =>
            if k == id {
              CancelSelfMeans(o, now, nodes, id, n, deleted);
              if !deleted && nodes[id].interval > 0 {
                events := events + [Cancel(id)];
              }
              deleted := true;
            } else {
              CancelOtherMeans(o, now, nodes, id, n, deleted, k);
              if k in nodes && nodes[k].expiry > now {
                Remove(k, due);
                events := events + [Cancel(k)];
              }
            }
        }
      }
      assert commands[..|commands|] == commands;
    }

    /** Fires one due timer: runs its callback, then files it again or forgets it. */
    method FireOne(id: Id, script: Script, ghost due: set<Id>) returns (events: seq<Event>)
      requires Filing(due) && Split(now, nodes, due) && AllTimely(now, nodes, due) && id in due
      modifies this`nodes, this`lastId, slots
      ensures Filing(due - {id}) && Split(now, nodes, due - {id}) && AllTimely(now, nodes, due - {id})
      ensures FiredOnce(old(Alarms()), old(lastId), id, script, events, Alarms(), lastId)
      ensures Leads(old(Alarms()), events, Alarms())
      ensures |events| > 0 && events[0] == Fire(id) && Tick !in events
      ensures old(lastId) <= lastId && Kept(old(nodes), nodes, old(lastId), {id})
      ensures id in nodes ==> nodes[id].expiry == old(nodes[id].expiry + nodes[id].interval)
      ensures CancelTimer(id) in script(id, now) ==> id !in nodes
      ensures AllArmed(now, old(lastId), script(id, now), Alarms().alarms)
    {
      hide Filed;
      hide Timely;
      hide Leads;
      hide AlarmsOf;
      hide Refiled;
      hide Obey;
      hide Firing;
      hide FiredOnce;
      hide Known;
      hide AllArmed;
      ghost var start, last := Alarms(), lastId;
      AlarmsKnown(now, nodes, last);
      FireMeans(now, nodes, id);
      var n := nodes[id];
      var acts, deleted := RunCallback(id, script(id, now), due);
      events := [Fire(id)] + acts;
      ghost var before := nodes;
      if n.interval > 0 && !deleted {
        var expiry := n.expiry + n.interval;
        if expiry <= now {
          expiry := now + n.interval;
        }
        Insert(id, n.(expiry := expiry), due);
        RefiledKeeps(now, n.(expiry := expiry));
        Refired(now, before, nodes, id, n);
      } else {
        RemoveOut(nodes, slots[..], due, id);
        nodes := nodes - {id};
        Forgotten(now, before, id, n, deleted);
      }
      FiringDone(start, last, id, script, events, Alarms(), lastId);
      AlarmsAre(nodes, id);
    }

    /** Fires everything under the hand. */
    method FireSlot(script: Script) returns (events: seq<Event>)
      requires Filing({}) && AllTimely(now, nodes, {})
      modifies this`nodes, this`lastId, slots
      ensures Valid() && Obeyed(old(Alarms()), old(lastId), events, script, Alarms(), lastId)
      ensures Leads(old(Alarms()), events, Alarms()) && Caused(events)
      ensures old(lastId) <= lastId
      ensures forall id :: id in nodes && id <= old(lastId) ==>
        id in old(nodes) && (now < old(nodes[id].expiry) ==> nodes[id] == old(nodes[id]))
    {
      hide Filed;
      hide Timely;
      hide Leads;
      hide AlarmsOf;
      hide FiredOnce;
      hide Obeyed;
      hide Known;
      ghost var start, last := Alarms(), lastId;
      AlarmsKnown(now, nodes, last);
      var p := now % 256;
      SlotCount(nodes, slots[..], {});
      Drained(nodes, slots[..], p);
      var list := slots[p];
      DueList(now, nodes, list, p);
      slots[p] := [];
      assert slots[..] == old(slots[..])[p := []];
      events := [];
      assert Obeyed(start, last, events, script, Alarms(), lastId) by { ObeyedNothing(start, last, script); }
      assert list[0..] == list;
      for i := 0 to |list|
        invariant Filing(Ids(list[i..])) && Split(now, nodes, Ids(list[i..])) && AllTimely(now, nodes, Ids(list[i..]))
        invariant Obeyed(start, last, events, script, Alarms(), lastId)
        invariant last <= lastId && forall id :: id in nodes && id <= last ==> id in old(nodes)
        invariant Kept(old(nodes), nodes, last, Ids(list))
      {
        assert list[i] in Ids(list[i..]) by { assert list[i..][0] == list[i]; }
        assert Ids(list[i..]) - {list[i]} == Ids(list[i + 1..]) by { RestIds(list, i); }
        ghost var middle, middleLast := Alarms(), lastId;
        var fired := FireOne(list[i], script, Ids(list[i..]));
        ObeyedFire(middle, middleLast, list[i], script, fired, Alarms(), lastId);
        ObeyedJoin(start, last, events, middle, middleLast, fired, Alarms(), lastId, script);
        events := events + fired;
      }
      assert Ids(list[|list|..]) == {};
      ObeyedLeads(start, last, events, script, Alarms(), lastId);
    }

    /**
     Advances the wheel to a time. The history is one the alarm clock allows: every timer fires at its deadline, and
     none is passed over. What follows a firing is what its callback does.
     */
    method Advance(target: nat, script: Script) returns (events: seq<Event>)
      requires Valid()
      modifies this`now, this`nodes, this`lastId, slots
      ensures Valid() && now == (if old(now) < target then target else old(now))
      ensures Obeyed(old(Alarms()), old(lastId), events, script, Alarms(), lastId)
      ensures Leads(old(Alarms()), events, Alarms()) && Caused(events)
      ensures old(lastId) <= lastId && Undisturbed(now, old(nodes), nodes, old(lastId))
    {
      hide Filed;
      hide Timely;
      hide Leads;
      hide AlarmsOf;
      hide Staged;
      hide Waiting;
      hide Obeyed;
      hide Known;
      ghost var start, last := Alarms(), lastId;
      AlarmsKnown(now, nodes, last);
      events := [];
      ObeyedNothing(start, last, script);
      while now < target
        invariant Valid() && old(now) <= now && (now <= target || now == old(now))
        invariant Obeyed(start, last, events, script, Alarms(), lastId)
        invariant last <= lastId && Undisturbed(now, old(nodes), nodes, last)
      {
        ghost var middle, middleLast := Alarms(), lastId;
        ghost var n0 := nodes;
        MayTick(now, nodes);
        Turn();
        ghost var n1 := nodes;
        StageAlarms(now, n0, n1);
        ObeyedTick(middle, middleLast, script);
        ObeyedJoin(start, last, events, middle, middleLast, [Tick], Alarms(), lastId, script);
        events := events + [Tick];
        middle, middleLast := Alarms(), lastId;
        var fired := FireSlot(script);
        ObeyedJoin(start, last, events, middle, middleLast, fired, Alarms(), lastId, script);
        events := events + fired;
        StillUndisturbed(now - 1, old(nodes), n0, n1, nodes, last);
      }
      ObeyedLeads(start, last, events, script, Alarms(), lastId);
    }

    method AddTimer(timeout: nat, interval: nat, clock: nat) returns (id: Id, event: Event)
      requires Valid()
      modifies this`nodes, this`lastId, slots
      ensures Valid() && id != 0 && event == Event.Arm(id, (if clock > now then clock else now + 1) + timeout, interval)
      ensures Leads(old(Alarms()), [event], Alarms())
      ensures nodes == old(nodes)[id := Refiled(now, Fresh(now, timeout, interval, clock))]
    {
      hide Filed;
      hide Timely;
      hide Refiled;
      ghost var before := nodes;
      id := Arm(timeout, interval, clock, {});
      event := Event.Arm(id, nodes[id].expiry, interval);
      LeadsStep(Clock(now, AlarmsOf(before)), event);
      assert AlarmsOf(nodes) == After(Clock(now, AlarmsOf(before)), event).alarms;
    }

    /** Takes a timer out of the list of its slot. */
    method Remove(id: Id, ghost out: set<Id>)
      requires Filing(out) && id in nodes && id !in out
      modifies this`nodes, slots
      ensures Filing(out) && nodes == old(nodes) - {id}
    {
      hide Filed;
      hide Without;
      var p := Place(nodes[id].level, nodes[id].slot);
      Unfiled(nodes, slots[..], out, id, p);
      SlotCount(nodes, slots[..], out);
      slots[p] := Without(slots[p], id);
      assert slots[..] == old(slots[..])[p := Without(old(slots[p]), id)];
      nodes := nodes - {id};
    }

    /** Cancels a timer; false if there is none with that identity. */
    method DelTimer(id: Id) returns (ok: bool)
      requires Valid()
      modifies this`nodes, slots
      ensures Valid() && ok == (id in old(nodes))
      ensures if ok then Leads(old(Alarms()), [Cancel(id)], Alarms()) else Alarms() == old(Alarms())
    {
      hide Timely;
      hide Filed;
      ok := id in nodes;
      if ok {
        ghost var before := nodes;
        Remove(id, {});
        LeadsStep(Clock(now, AlarmsOf(before)), Cancel(id));
        assert AlarmsOf(nodes) == AlarmsOf(before) - {id};
      }
    }

    /**
     How long the loop may sleep. The scan looks at level 0 only, so a timer of a higher level can be slept past,
     but only if the sleep goes past the next multiple of 256 ms after the hand.
     */
    method NextWait(clock: nat) returns (wait: nat)
      requires Valid()
      ensures wait <= MAX_WAIT
      ensures wait == 0 ==> exists id :: id in nodes && nodes[id].level == 0 && nodes[id].expiry <= clock
      ensures wait < MAX_WAIT ==> exists id :: id in nodes && nodes[id].level == 0 && nodes[id].expiry <= clock + wait
      ensures forall id :: id in nodes && nodes[id].level == 0 ==> wait == 0 || clock + wait <= nodes[id].expiry
      ensures clock + wait <= Boundary(now) ==> forall id :: id in nodes ==>
        wait == 0 || clock + wait <= nodes[id].expiry
    {
      hide Filed;
      hide Timely;
      HigherLevelsLater(now, nodes);
      if nodes == map[] {
        return MAX_WAIT;
      }
      SlotCount(nodes, slots[..], {});
      for offset := 1 to 257
        invariant forall id :: id in nodes && nodes[id].level == 0 ==> now + offset <= nodes[id].expiry
      {
        var p := (now + offset) % 256;
        SlotUnder(now, nodes, slots[..], offset);
        if slots[p] != [] {
          ghost var id := slots[p][0];
          assert id in slots[p] && id in nodes && nodes[id].level == 0 && nodes[id].expiry == now + offset;
          var target := now + offset;
          if target <= clock {
            return 0;
          }
          return if target - clock < MAX_WAIT then target - clock else MAX_WAIT;
        }
      }
      LevelZeroNear(now, nodes);
      wait := MAX_WAIT;
    }
  }

  /** The next multiple of 256 ms after the hand: no timer of a higher level is due before it. */
  function Boundary(now: nat): nat {
    256 * (now / 256 + 1)
  }

  lemma HigherLevelsLater(now: nat, nodes: Nodes)
    requires AllTimely(now, nodes, {})
    ensures forall id :: id in nodes && nodes[id].level >= 1 ==> Boundary(now) <= nodes[id].expiry
  {
    forall id | id in nodes && nodes[id].level >= 1
      ensures Boundary(now) <= nodes[id].expiry
    {
      assert Timely(now, nodes[id]);
      var per := if nodes[id].level == 1 then 1 else if nodes[id].level == 2 then 64 else 4096;
      PastBoundary(now, nodes[id].expiry / (256 * per) * per);
    }
  }

  lemma PastBoundary(now: nat, blocks: nat)
    requires now < 256 * blocks
    ensures Boundary(now) <= 256 * blocks
  {
    assert now / 256 < blocks;
  }

  /**
   A wheel that sleeps past a timer: armed early enough to be filed in level 1 and due at the boundary, the timer is
   still there when the hand is just before it. With 700, 1020 and 1020: armed at 700 for 1024, the loop sleeps
   from 1020 to 1030.
   */
  method SleepsPastFrom(start: nat, now: nat, clock: nat) returns (wheel: Wheel, id: Id, wait: nat)
    requires start <= now && 256 <= Boundary(now) - start < 16384 && Boundary(now) < clock + MAX_WAIT
    ensures wheel.Valid() && wheel.now == now && wait == MAX_WAIT
    ensures id in wheel.nodes && wheel.nodes[id].expiry == Boundary(now) < clock + wait
  {
    hide Filed;
    hide Timely;
    hide Leads;
    hide Refiled;
    hide AlarmsOf;
    hide Undisturbed;
    wheel := new Wheel(start);
    var event;
    id, event := wheel.AddTimer(Boundary(now) - start - 1, 0, 0);
    ghost var nodes, last := wheel.nodes, wheel.lastId;
    assert id in nodes;
    var events := wheel.Advance(now, (_, _) => []);
    StillWaits(start, now, nodes, wheel.nodes, id, last, events);
    wait := wheel.NextWait(clock);
  }

  lemma StillWaits(start: nat, now: nat, before: Nodes, after: Nodes, id: Id, last: Id, events: seq<Event>)
    requires start <= now && 256 <= Boundary(now) - start < 16384
    requires before == map[id := Refiled(start, Fresh(start, Boundary(now) - start - 1, 0, 0))] && id <= last
    requires Leads(Clock(start, AlarmsOf(before)), events, Clock(now, AlarmsOf(after))) && Caused(events)
    requires Undisturbed(now, before, after, last)
    ensures after == map[id := Node(Boundary(now), 0, 1, Boundary(now) / 256 % 64)]
  {
    hide Leads;
    assert before[id] == Node(Boundary(now), 0, 1, Boundary(now) / 256 % 64);
    QuietUntilDue(Clock(start, AlarmsOf(before)), events, Clock(now, AlarmsOf(after)));
    assert after.Keys == AlarmsOf(after).Keys == {id};
    assert Waiting(now, before[id]);
  }

  /**
   The bound of `NextWait` is exact: for every hand and every clock whose longest sleep goes past the boundary
   there is a wheel, built with the operations, that sleeps past a timer due at the boundary.
   */
  method SleepsPast(now: nat, clock: nat) returns (wheel: Wheel, id: Id, wait: nat)
    requires Boundary(now) < clock + MAX_WAIT
    ensures wheel.Valid() && wheel.now == now && wait == MAX_WAIT
    ensures id in wheel.nodes && wheel.nodes[id].expiry == Boundary(now) < clock + wait
  {
    wheel, id, wait := SleepsPastFrom(256 * (now / 256), now, clock);
  }

  // ---------- what a turn does to one timer ----------

  lemma RestIds(list: seq<Id>, i: nat)
    requires i < |list| && NoRepeats(list)
    ensures Ids(list[i..]) - {list[i]} == Ids(list[i + 1..])
  {
    forall id
      ensures id in Ids(list[i..]) - {list[i]} <==> id in Ids(list[i + 1..])
    {
      if id in Ids(list[i..]) - {list[i]} {
        var j :| 0 <= j < |list[i..]| && list[i..][j] == id;
        assert list[i + 1..][j - 1] == id;
      }
      if id in Ids(list[i + 1..]) {
        var j :| 0 <= j < |list[i + 1..]| && list[i + 1..][j] == id;
        assert list[i..][j + 1] == id && list[i + 1 + j] == id;
      }
    }
  }

  predicate At(n: Node, level: nat, slot: nat) {
    n.level == level && n.slot == slot
  }

  /** The timers of the slot are refiled and the others are where they were. */
  predicate Moved(now: nat, before: Nodes, after: Nodes, level: nat, slot: nat) {
    && before.Keys == after.Keys
    && forall id :: id in before ==>
      after[id] == if At(before[id], level, slot) then Refiled(now, before[id]) else before[id]
  }

  lemma AllMoved(now: nat, before: Nodes, after: Nodes, level: nat, slot: nat, list: seq<Id>)
    requires before.Keys == after.Keys && 1 <= level <= 3 && slot < 64
    requires forall id :: id in before ==> InRange(before[id])
    requires forall id :: id in before && id !in list ==> after[id] == before[id]
    requires forall id :: id in list ==> id in before && after[id] == Refiled(now, before[id])
    requires forall id :: id in list <==>
      id in before && InRange(before[id]) && Place(before[id].level, before[id].slot) == Place(level, slot)
    ensures Moved(now, before, after, level, slot)
  {
    hide Refiled;
    forall id | id in before
      ensures id in list <==> At(before[id], level, slot)
    {
      assert InRange(before[id]);
    }
  }

  // ---------- a turn, level by level ----------

  /** The timers the turn moves are refiled up to level k; everything else is where it was. */
  predicate Staged(now: nat, before: Nodes, after: Nodes, k: nat) {
    && before.Keys == after.Keys
    && forall id :: id in before ==>
      after[id] == if MustMove(now, before[id]) && before[id].level <= k then Refiled(now, before[id]) else before[id]
  }

  lemma StageNone(now: nat, nodes: Nodes)
    ensures Staged(now, nodes, nodes, 0)
  {
  }

  lemma StageExpiry(now: nat, before: Nodes, after: Nodes, k: nat)
    requires Staged(now, before, after, k) && forall id :: id in before ==> now <= before[id].expiry
    ensures forall id :: id in after ==> now <= after[id].expiry
  {
  }

  lemma StageNext(now: nat, before: Nodes, middle: Nodes, after: Nodes, level: nat)
    requires 1 <= level <= 3 && now % Width(level) == 0 && Staged(now, before, middle, level - 1)
    requires forall id :: id in before ==> InRange(before[id]) && now <= before[id].expiry
    requires Moved(now, middle, after, level, now / Width(level) % 64)
    ensures Staged(now, before, after, level)
  {
    hide LevelFor;
    hide SlotFor;
    forall id | id in before
      ensures after[id] ==
        if MustMove(now, before[id]) && before[id].level <= level then Refiled(now, before[id]) else before[id]
    {
      assert Refiled(now, Refiled(now, before[id])) == Refiled(now, before[id]);
    }
  }

  /** The hand of level k is not at zero, so no slot of a higher level comes up. */
  lemma StageSkip(now: nat, before: Nodes, after: Nodes, k: nat)
    requires k <= 2 && Staged(now, before, after, k)
    requires if k == 0 then now % 256 != 0 else now / Width(k) % 64 != 0
    ensures Staged(now, before, after, 3)
  {
    hide Refiled;
    forall id | id in before && MustMove(now, before[id])
      ensures before[id].level <= k
    {
      if before[id].level > k {
        NoHigherSlot(now, k, before[id].level);
      }
    }
  }

  lemma NoHigherSlot(now: nat, k: nat, level: nat)
    requires k < level <= 3
    requires if k == 0 then now % 256 != 0 else now / Width(k) % 64 != 0
    ensures now % Width(level) != 0
  {
    var q, r := now / Width(level), now % Width(level);
    assert now == Width(level) * q + r;
    match level {
      case 1 =>
      case 2 => HigherSlot2(now, q);
      case _ => HigherSlot3(now, q);
    }
  }

  /** The hands of the lower levels are at zero. */
  lemma WholeTurns(now: nat)
    requires now % 256 == 0 && now / 256 % 64 == 0
    ensures now % 16384 == 0 && (now / 16384 % 64 == 0 ==> now % 1048576 == 0)
  {
    var q := now / 256;
    var r := q / 64;
    assert now == 256 * q && q == 64 * r;
    WholeTurns2(now, r);
    if r % 64 == 0 {
      WholeTurns3(now, r / 64);
    }
  }

  lemma WholeTurns2(now: nat, r: nat)
    requires now == 16384 * r
    ensures now % 16384 == 0 && now / 16384 == r
  {
  }

  lemma WholeTurns3(now: nat, t: nat)
    requires now == 1048576 * t
    ensures now % 1048576 == 0
  {
  }

  lemma HigherSlot2(now: nat, q: nat)
    ensures now == 16384 * q ==> now % 256 == 0 && now / 256 % 64 == 0
  {
    assert now == 16384 * q ==> now / 256 == 64 * q;
  }

  lemma HigherSlot3(now: nat, q: nat)
    ensures now == 1048576 * q ==> now % 256 == 0 && now / 256 % 64 == 0 && now / 16384 % 64 == 0
  {
    assert now == 1048576 * q ==> now / 256 == 64 * (64 * q) && now / 16384 == 64 * q;
  }

  lemma StageDone(now: nat, before: Nodes, after: Nodes)
    requires AllTimely(now, before, {}) && Split(now, before, {}) && Staged(now + 1, before, after, 3)
    ensures AllTimely(now + 1, after, {})
  {
    hide Timely;
    hide Refiled;
    forall id | id in after
      ensures Timely(now + 1, after[id])
    {
      TickMoves(now, before[id]);
      if MustMove(now + 1, before[id]) {
        RefiledTimely(now + 1, before[id]);
      }
    }
  }

  lemma StageAlarms(now: nat, before: Nodes, after: Nodes)
    requires Staged(now, before, after, 3)
    ensures AlarmsOf(after) == AlarmsOf(before)
  {
  }

  // ---------- a timer whose slot has not come up ----------

  /** The slot of a timer of a higher level has yet to come up. */
  predicate Waiting(now: nat, n: Node) {
    n.level >= 1 && now / Width(n.level) < n.expiry / Width(n.level)
  }

  /** Of the timers that were there, those that are left and whose slot has not come up are where they were. */
  predicate Undisturbed(now: nat, before: Nodes, after: Nodes, last: Id) {
    forall id :: id in after && id <= last ==> id in before && (Waiting(now, before[id]) ==> after[id] == before[id])
  }

  lemma WaitingStays(now: nat, n: Node)
    requires Timely(now, n) && Waiting(now + 1, n)
    ensures now + 1 < n.expiry && (MustMove(now + 1, n) ==> Refiled(now + 1, n) == n)
  {
    match n.level {
      case 1 => NotItsSlot(n.expiry / 256, (now + 1) / 256);
      case 2 => NotItsSlot(n.expiry / 16384, (now + 1) / 16384);
      case _ =>
    }
  }

  lemma NotItsSlot(a: nat, b: nat)
    ensures b < a < b + 64 ==> a % 64 != b % 64
  {
  }

  lemma WaitedBefore(now: nat, n: Node)
    requires Waiting(now + 1, n)
    ensures Waiting(now, n)
  {
    assert now / Width(n.level) <= (now + 1) / Width(n.level);
  }

  lemma StillUndisturbed(now: nat, start: Nodes, before: Nodes, turned: Nodes, after: Nodes, last: Id)
    requires Undisturbed(now, start, before, last) && AllTimely(now, before, {})
    requires Staged(now + 1, before, turned, 3)
    requires forall id :: id in after && id <= last ==>
      id in turned && (now + 1 < turned[id].expiry ==> after[id] == turned[id])
    ensures Undisturbed(now + 1, start, after, last)
  {
    hide Timely;
    hide Waiting;
    hide Refiled;
    forall id | id in after && id <= last
      ensures id in start && (Waiting(now + 1, start[id]) ==> after[id] == start[id])
    {
      assert id in before;
      if Waiting(now + 1, start[id]) {
        WaitedBefore(now, start[id]);
        WaitingStays(now, before[id]);
      }
    }
  }

  // ---------- the history of one firing ----------

  lemma RefiledKeeps(now: nat, n: Node)
    ensures Refiled(now, n).expiry == n.expiry && Refiled(now, n).interval == n.interval
  {
  }

  /** The alarms while the callback of a timer runs: the timer is already set to its next deadline, or gone. */
  function Firing(now: nat, nodes: Nodes, id: Id, n: Node, deleted: bool): Clock {
    var others := AlarmsOf(nodes) - {id};
    Clock(now, if n.interval > 0 && !deleted then others[id := Alarm(now + n.interval, n.interval)] else others)
  }

  lemma FireMeans(now: nat, nodes: Nodes, id: Id)
    requires id in nodes && nodes[id].expiry == now
    ensures var c := Clock(now, AlarmsOf(nodes));
      Allowed(c, Fire(id)) && After(c, Fire(id)) == Firing(now, nodes, id, nodes[id], false)
  {
    var c := Clock(now, AlarmsOf(nodes));
    if nodes[id].interval > 0 {
      assert c.alarms[id := Alarm(now + nodes[id].interval, nodes[id].interval)] ==
        (c.alarms - {id})[id := Alarm(now + nodes[id].interval, nodes[id].interval)];
    }
  }

  lemma NoCommands(c: Clock, last: Id, commands: seq<Command>)
    ensures Obey(c, last, commands[..0]) == Outcome([], c, last)
  {
  }

  /** Arming a timer does to the wheel what it does to the alarms. */
  lemma ArmMeans(o: Outcome, now: nat, before: Nodes, after: Nodes, id: Id, n: Node, deleted: bool, command: Command)
    requires o.clock == Firing(now, before, id, n, deleted) && id in before && o.last + 1 !in before
    requires command.ArmTimer?
    requires after == before[o.last + 1 := Refiled(now, Fresh(now, command.timeout, command.interval, command.clock))]
    ensures var k, o' := o.last + 1, ObeyOne(o, command);
      && o'.events == o.events + [Event.Arm(k, after[k].expiry, command.interval)] && o'.last == k
      && o'.clock == Firing(now, after, id, n, deleted)
  {
    hide Refiled;
    var k := o.last + 1;
    RefiledKeeps(now, Fresh(now, command.timeout, command.interval, command.clock));
    assert ObeyOne(o, command).clock.alarms == Firing(now, after, id, n, deleted).alarms;
  }

  lemma CancelSelfMeans(o: Outcome, now: nat, nodes: Nodes, id: Id, n: Node, deleted: bool)
    requires o.clock == Firing(now, nodes, id, n, deleted) && id in nodes
    ensures var o' := ObeyOne(o, CancelTimer(id));
      && o'.events == (if !deleted && n.interval > 0 then o.events + [Cancel(id)] else o.events) && o'.last == o.last
      && o'.clock == Firing(now, nodes, id, n, true)
  {
    assert ObeyOne(o, CancelTimer(id)).clock.alarms == Firing(now, nodes, id, n, true).alarms;
  }

  lemma CancelOtherMeans(o: Outcome, now: nat, nodes: Nodes, id: Id, n: Node, deleted: bool, k: Id)
    requires o.clock == Firing(now, nodes, id, n, deleted) && id in nodes && k != id
    ensures var o', there := ObeyOne(o, CancelTimer(k)), k in nodes && nodes[k].expiry > now;
      && o'.events == (if there then o.events + [Cancel(k)] else o.events) && o'.last == o.last
      && o'.clock == Firing(now, if there then nodes - {k} else nodes, id, n, deleted)
  {
    if k in nodes && nodes[k].expiry > now {
      assert ObeyOne(o, CancelTimer(k)).clock.alarms == Firing(now, nodes - {k}, id, n, deleted).alarms;
    }
  }

  lemma FiringDone(c: Clock, last: Id, id: Id, script: Script, events: seq<Event>, d: Clock, last': Id)
    requires Allowed(c, Fire(id)) && Known(c, last)
    requires var o := Obey(After(c, Fire(id)), last, script(id, c.now));
      events == [Fire(id)] + o.events && d == o.clock && last' == o.last
    ensures FiredOnce(c, last, id, script, events, d, last') && Leads(c, events, d) && Tick !in events
    ensures CancelTimer(id) in script(id, c.now) ==> id !in d.alarms
    ensures AllArmed(c.now, last, script(id, c.now), d.alarms)
  {
    hide Obey;
    hide AllArmed;
    AllAreThere(After(c, Fire(id)), last, script(id, c.now));
    ObeyedFire(c, last, id, script, events, d, last');
    ObeyedLeads(c, last, events, script, d, last');
    FireKnown(c, last, id);
    NoFireIn(After(c, Fire(id)), last, script(id, c.now));
    if CancelTimer(id) in script(id, c.now) {
      CancelledIsGone(After(c, Fire(id)), last, script(id, c.now), id);
    }
  }

  lemma AlarmsAre(nodes: Nodes, id: Id)
    ensures id in AlarmsOf(nodes) <==> id in nodes
  {
  }

  lemma AlarmsKnown(now: nat, nodes: Nodes, last: Id)
    requires forall id :: id in nodes ==> id <= last
    ensures Known(Clock(now, AlarmsOf(nodes)), last)
  {
  }

  lemma ObeyedNothing(c: Clock, last: Id, script: Script)
    ensures Obeyed(c, last, [], script, c, last)
  {
  }

  lemma Refired(now: nat, before: Nodes, after: Nodes, id: Id, n: Node)
    requires id in before && id in after && n.interval > 0
    requires after[id].expiry == now + n.interval && after[id].interval == n.interval
    requires after == before[id := after[id]]
    ensures Clock(now, AlarmsOf(after)) == Firing(now, before, id, n, false)
  {
    assert AlarmsOf(after) == Firing(now, before, id, n, false).alarms;
  }

  lemma Forgotten(now: nat, before: Nodes, id: Id, n: Node, deleted: bool)
    requires n.interval == 0 || deleted
    ensures Clock(now, AlarmsOf(before - {id})) == Firing(now, before, id, n, deleted)
  {
    assert AlarmsOf(before - {id}) == Firing(now, before, id, n, deleted).alarms;
  }

  /** The clock may tick, because between ticks everything is in the future. */
  lemma MayTick(now: nat, nodes: Nodes)
    requires Split(now, nodes, {})
    ensures Allowed(Clock(now, AlarmsOf(nodes)), Tick)
  {
  }

  lemma DueList(now: nat, nodes: Nodes, list: seq<Id>, p: nat)
    requires AllTimely(now, nodes, {}) && p == now % 256
    requires forall id :: id in list <==>
      id in nodes && InRange(nodes[id]) && Place(nodes[id].level, nodes[id].slot) == p
    ensures Split(now, nodes, Ids(list)) && AllTimely(now, nodes, Ids(list))
  {
    forall id | id in nodes
      ensures now <= nodes[id].expiry && (nodes[id].expiry == now <==> id in Ids(list))
    {
      DueUnderHand(now, nodes[id]);
      assert id in list <==> id in Ids(list);
    }
  }

  function Without(list: seq<Id>, id: Id): seq<Id> {
    if list == [] then [] else if list[0] == id then list[1..] else [list[0]] + Without(list[1..], id)
  }

  lemma {:induction false} WithoutOne(list: seq<Id>, id: Id)
    requires NoRepeats(list)
    ensures NoRepeats(Without(list, id))
    ensures forall k :: k in Without(list, id) <==> k in list && k != id
  {
    if list != [] {
      assert forall k :: k in list <==> k == list[0] || k in list[1..];
      WithoutOne(list[1..], id);
      assert list[0] !in list[1..];
      var rest := Without(list[1..], id);
      if list[0] != id {
        assert forall k :: k in [list[0]] + rest <==> k == list[0] || k in rest;
      }
    }
  }

  lemma Unfiled(nodes: Nodes, slots: Slots, out: set<Id>, id: Id, p: nat)
    requires Filed(nodes, slots, out) && id in nodes && id !in out && p == Place(nodes[id].level, nodes[id].slot)
    ensures p < |slots| && Filed(nodes - {id}, slots[p := Without(slots[p], id)], out)
  {
    hide Without;
    assert id in slots[p];
    WithoutOne(slots[p], id);
    var rest := slots[p := Without(slots[p], id)];
    forall k | k in nodes - {id} && k !in out
      ensures InRange(nodes[k]) && k in rest[Place(nodes[k].level, nodes[k].slot)]
    {
      assert k in slots[Place(nodes[k].level, nodes[k].slot)];
    }
    forall q, k | 0 <= q < SLOTS && k in rest[q]
      ensures k in nodes - {id} && k !in out && InRange(nodes[k]) && Place(nodes[k].level, nodes[k].slot) == q
    {
      assert k in slots[q];
    }
  }

  /** With nothing nearer at level 0, a slot `offset` ahead of the hand holds exactly the timers due that much later. */
  lemma SlotUnder(now: nat, nodes: Nodes, slots: Slots, offset: nat)
    requires Filed(nodes, slots, {}) && AllTimely(now, nodes, {}) && Split(now, nodes, {}) && 1 <= offset <= 256
    requires forall id :: id in nodes && nodes[id].level == 0 ==> now + offset <= nodes[id].expiry
    ensures forall id :: id in slots[(now + offset) % 256] ==>
      id in nodes && nodes[id].level == 0 && nodes[id].expiry == now + offset
    ensures slots[(now + offset) % 256] == [] ==>
      forall id :: id in nodes && nodes[id].level == 0 ==> now + offset + 1 <= nodes[id].expiry
  {
    var p := (now + offset) % 256;
    forall id | id in slots[p]
      ensures id in nodes && nodes[id].level == 0 && nodes[id].expiry == now + offset
    {
      assert Place(nodes[id].level, nodes[id].slot) == p;
      assert nodes[id].level == 0;
      NearestSlot(now, offset, nodes[id].expiry);
    }
    forall id | id in nodes && nodes[id].level == 0 && nodes[id].expiry == now + offset
      ensures id in slots[p]
    {
      assert id in slots[Place(nodes[id].level, nodes[id].slot)];
    }
  }

  lemma LevelZeroNear(now: nat, nodes: Nodes)
    requires AllTimely(now, nodes, {})
    ensures forall id :: id in nodes && nodes[id].level == 0 ==> nodes[id].expiry <= now + 255
  {
  }

  lemma NearestSlot(now: nat, offset: nat, expiry: nat)
    requires now + offset <= expiry <= now + 255 && expiry % 256 == (now + offset) % 256
    ensures expiry == now + offset
  {
  }

  lemma AllInRange(nodes: Nodes, slots: Slots)
    requires Filed(nodes, slots, {})
    ensures forall id :: id in nodes ==> InRange(nodes[id])
  {
  }

  lemma SlotCount(nodes: Nodes, slots: Slots, out: set<Id>)
    requires Filed(nodes, slots, out)
    ensures |slots| == SLOTS
  {
  }
}
