/**
 What the callbacks of timers do: a script says, for each timer and time, which commands its callback carries out.
 A history obeys a script if what follows each firing is exactly the commands of its callback, in order.
 */
module TimerScript {
  import opened AlarmClock

  /** A callback may arm timers, reading the clock as it likes, and cancel its own timer or another one. */
  datatype Command = ArmTimer(timeout: nat, interval: nat, clock: nat) | CancelTimer(id: Id)

  type Script = (Id, nat) -> seq<Command>

  /** What commands leave behind: their events, the alarms, and the last identity given out. */
  datatype Outcome = Outcome(events: seq<Event>, clock: Clock, last: Id)

  /** A timer starts at the clock its caller read, or at the next tick if the hand has reached that. */
  function Deadline(now: nat, clock: nat, timeout: nat): nat {
    (if clock > now then clock else now + 1) + timeout
  }

  function ObeyOne(o: Outcome, command: Command): Outcome {
    match command
    case ArmTimer(timeout, interval, clock) =>
      var id, deadline := o.last + 1, Deadline(o.clock.now, clock, timeout);
      Outcome(o.events + [Event.Arm(id, deadline, interval)],
              o.clock.(alarms := o.clock.alarms[id := Alarm(deadline, interval)]), id)
    case CancelTimer(id) =>
      if id in o.clock.alarms && o.clock.alarms[id].deadline > o.clock.now then
        Outcome(o.events + [Cancel(id)], o.clock.(alarms := o.clock.alarms - {id}), o.last)
      else o
  }

  /** The commands of one callback, in order. */
  function Obey(c: Clock, last: Id, commands: seq<Command>): Outcome {
    if commands == [] then Outcome([], c, last)
    else ObeyOne(Obey(c, last, commands[..|commands| - 1]), commands[|commands| - 1])
  }

  lemma ObeyMore(c: Clock, last: Id, commands: seq<Command>, j: nat)
    requires j < |commands|
    ensures Obey(c, last, commands[..j + 1]) == ObeyOne(Obey(c, last, commands[..j]), commands[j])
  {
    assert commands[..j + 1][..j] == commands[..j];
  }

  /** Identities are given out in order, so the next one is new. */
  predicate Known(c: Clock, last: Id) {
    forall id :: id in c.alarms ==> id <= last
  }

  lemma {:induction false} ObeyLeads(c: Clock, last: Id, commands: seq<Command>)
    requires Known(c, last)
    ensures var o := Obey(c, last, commands);
      Leads(c, o.events, o.clock) && o.clock.now == c.now && Known(o.clock, o.last) && last <= o.last
    ensures forall e :: e in Obey(c, last, commands).events ==> e.Arm? || e.Cancel?
    decreases |commands|
  {
    if commands != [] {
      var n := |commands| - 1;
      ObeyLeads(c, last, commands[..n]);
      var o := Obey(c, last, commands[..n]);
      var o' := ObeyOne(o, commands[n]);
      if o' != o {
        var e := o'.events[|o.events|];
        LeadsStep(o.clock, e);
        hide Leads;
        LeadsJoin(c, o.events, o.clock, [e], o'.clock);
      }
    }
  }

  // ---------- what one callback gets done ----------

  function Arms(commands: seq<Command>): nat {
    if commands == [] then 0
    else Arms(commands[..|commands| - 1]) + (if commands[|commands| - 1].ArmTimer? then 1 else 0)
  }

  lemma {:induction false} LastGivenOut(c: Clock, last: Id, commands: seq<Command>)
    ensures Obey(c, last, commands).last == last + Arms(commands) && Obey(c, last, commands).clock.now == c.now
    decreases |commands|
  {
    if commands != [] {
      LastGivenOut(c, last, commands[..|commands| - 1]);
    }
  }

  /** A cancelled timer is gone, unless it was due on this very tick; its identity is not given out again. */
  lemma {:induction false} CancelledIsGone(c: Clock, last: Id, commands: seq<Command>, id: Id)
    requires CancelTimer(id) in commands && id <= last && (id in c.alarms ==> c.alarms[id].deadline > c.now)
    ensures id !in Obey(c, last, commands).clock.alarms
    decreases |commands|
  {
    var n := |commands| - 1;
    LastGivenOut(c, last, commands[..n]);
    if commands[n] == CancelTimer(id) {
      OldAlarm(c, last, commands[..n], id);
    } else {
      assert CancelTimer(id) in commands[..n];
      CancelledIsGone(c, last, commands[..n], id);
    }
  }

  /** Commands leave an old alarm alone or cancel it, and cancel it only if one of them says so. */
  lemma {:induction false} OldAlarm(c: Clock, last: Id, commands: seq<Command>, id: Id)
    requires id <= last
    ensures var d := Obey(c, last, commands).clock;
      id in d.alarms ==> id in c.alarms && d.alarms[id] == c.alarms[id]
    ensures CancelTimer(id) !in commands && id in c.alarms ==> id in Obey(c, last, commands).clock.alarms
    decreases |commands|
  {
    if commands != [] {
      var n := |commands| - 1;
      LastGivenOut(c, last, commands[..n]);
      OldAlarm(c, last, commands[..n], id);
      assert commands[n] in commands;
    }
  }

  /** A timer that a command arms is there at the end, unless a later command cancels it. */
  lemma {:induction false} ArmedIsThere(c: Clock, last: Id, commands: seq<Command>, j: nat)
    requires j < |commands| && commands[j].ArmTimer?
    requires CancelTimer(last + Arms(commands[..j]) + 1) !in commands[j + 1..]
    ensures var id, d := last + Arms(commands[..j]) + 1, Obey(c, last, commands).clock;
      && id in d.alarms
      && d.alarms[id] == Alarm(Deadline(c.now, commands[j].clock, commands[j].timeout), commands[j].interval)
    decreases |commands|
  {
    var n := |commands| - 1;
    LastGivenOut(c, last, commands[..n]);
    if j < n {
      assert commands[..n][..j] == commands[..j];
      assert commands[..n][j + 1..] == commands[j + 1..][..n - j - 1];
      ArmedIsThere(c, last, commands[..n], j);
      ArmsGrow(commands[..n], j);
      assert commands[n] in commands[j + 1..] by { assert commands[j + 1..][n - j - 1] == commands[n]; }
    }
  }

  /** Every timer that the commands arm, and that no later one of them cancels, is set. */
  predicate AllArmed(now: nat, last: Id, commands: seq<Command>, alarms: map<Id, Alarm>) {
    forall j :: 0 <= j < |commands| && commands[j].ArmTimer? ==>
      var id := last + Arms(commands[..j]) + 1;
      CancelTimer(id) in commands[j + 1..] || (id in alarms &&
        alarms[id] == Alarm(Deadline(now, commands[j].clock, commands[j].timeout), commands[j].interval))
  }

  lemma AllAreThere(c: Clock, last: Id, commands: seq<Command>)
    ensures AllArmed(c.now, last, commands, Obey(c, last, commands).clock.alarms)
  {
    hide Obey;
    hide Arms;
    forall j | 0 <= j < |commands| && commands[j].ArmTimer?
      && CancelTimer(last + Arms(commands[..j]) + 1) !in commands[j + 1..]
      ensures var id, d := last + Arms(commands[..j]) + 1, Obey(c, last, commands).clock;
        id in d.alarms &&
        d.alarms[id] == Alarm(Deadline(c.now, commands[j].clock, commands[j].timeout), commands[j].interval)
    {
      ArmedIsThere(c, last, commands, j);
    }
  }

  lemma {:induction false} ArmsGrow(commands: seq<Command>, j: nat)
    requires j < |commands| && commands[j].ArmTimer?
    ensures Arms(commands[..j]) < Arms(commands)
    decreases |commands|
  {
    var n := |commands| - 1;
    if j < n {
      assert commands[..n][..j] == commands[..j];
      ArmsGrow(commands[..n], j);
    } else {
      assert commands[..j] == commands[..n];
    }
  }

  /** The event of an arming is among the events of the callback. */
  lemma {:induction false} ArmedIsTold(c: Clock, last: Id, commands: seq<Command>, j: nat)
    requires j < |commands| && commands[j].ArmTimer?
    ensures Event.Arm(last + Arms(commands[..j]) + 1, Deadline(c.now, commands[j].clock, commands[j].timeout),
                      commands[j].interval) in Obey(c, last, commands).events
    decreases |commands|
  {
    var n := |commands| - 1;
    LastGivenOut(c, last, commands[..n]);
    if j < n {
      assert commands[..n][..j] == commands[..j];
      ArmedIsTold(c, last, commands[..n], j);
    } else {
      assert commands[..j] == commands[..n];
    }
  }

  // ---------- histories ----------

  /** One firing with its callback. */
  predicate FiredOnce(c: Clock, last: Id, id: Id, script: Script, events: seq<Event>, d: Clock, last': Id) {
    && Allowed(c, Fire(id))
    && var o := Obey(After(c, Fire(id)), last, script(id, c.now));
    events == [Fire(id)] + o.events && d == o.clock && last' == o.last
  }

  /** The history is made of ticks and of firings, each with what its callback does. */
  predicate Obeyed(c: Clock, last: Id, events: seq<Event>, script: Script, d: Clock, last': Id)
    decreases |events|
  {
    if events == [] then c == d && last == last'
    else
      && Allowed(c, events[0])
      && match events[0]
         case Tick => Obeyed(After(c, Tick), last, events[1..], script, d, last')
         case Fire(id) =>
           var o := Obey(After(c, Fire(id)), last, script(id, c.now));
           o.events <= events[1..] && Obeyed(o.clock, o.last, events[1 + |o.events|..], script, d, last')
         case _ => false
  }

  lemma ObeyedTick(c: Clock, last: Id, script: Script)
    requires Allowed(c, Tick)
    ensures Obeyed(c, last, [Tick], script, After(c, Tick), last)
  {
    assert [Tick][1..] == [];
    assert Obeyed(After(c, Tick), last, [], script, After(c, Tick), last);
  }

  lemma ObeyedFire(c: Clock, last: Id, id: Id, script: Script, events: seq<Event>, d: Clock, last': Id)
    requires FiredOnce(c, last, id, script, events, d, last')
    ensures Obeyed(c, last, events, script, d, last')
  {
    var o := Obey(After(c, Fire(id)), last, script(id, c.now));
    assert events[1..] == o.events && events[1 + |o.events|..] == [];
    assert Obeyed(d, last', [], script, d, last');
  }

  lemma {:induction false} ObeyedJoin(c: Clock, last: Id, first: seq<Event>, d: Clock, last': Id, second: seq<Event>,
                                      e: Clock, last'': Id, script: Script)
    requires Obeyed(c, last, first, script, d, last') && Obeyed(d, last', second, script, e, last'')
    ensures Obeyed(c, last, first + second, script, e, last'')
    decreases |first|
  {
    hide Obey;
    if first == [] {
      assert first + second == second;
    } else {
      assert (first + second)[1..] == first[1..] + second;
      match first[0]
      case Tick => ObeyedJoin(After(c, Tick), last, first[1..], d, last', second, e, last'', script);
      case Fire(id) =>
        var o := Obey(After(c, Fire(id)), last, script(id, c.now));
        var n := 1 + |o.events|;
        assert (first + second)[n..] == first[n..] + second;
        ObeyedJoin(o.clock, o.last, first[n..], d, last', second, e, last'', script);
    }
  }

  lemma FireKnown(c: Clock, last: Id, id: Id)
    requires Known(c, last) && Allowed(c, Fire(id))
    ensures Known(After(c, Fire(id)), last) && id <= last
  {
  }

  /** A history that obeys a script is one the clock allows, and only callbacks act in it. */
  lemma {:induction false} ObeyedLeads(c: Clock, last: Id, events: seq<Event>, script: Script, d: Clock, last': Id)
    requires Known(c, last) && Obeyed(c, last, events, script, d, last')
    ensures Leads(c, events, d) && Known(d, last') && last <= last' && Caused(events)
    decreases |events|
  {
    hide Obey;
    if events != [] {
      match events[0]
      case Tick =>
        ObeyedLeads(After(c, Tick), last, events[1..], script, d, last');
      case Fire(id) =>
        FireKnown(c, last, id);
        var c' := After(c, Fire(id));
        var o := Obey(c', last, script(id, c.now));
        var n := 1 + |o.events|;
        ObeyLeads(c', last, script(id, c.now));
        ObeyedLeads(o.clock, o.last, events[n..], script, d, last');
        assert events[1..] == o.events + events[n..];
        LeadsJoin(c', o.events, o.clock, events[n..], d);
        CausedAfter(events, n);
    }
  }

  lemma CausedAfter(events: seq<Event>, n: nat)
    requires 1 <= n <= |events| && events[0].Fire? && Caused(events[n..])
    requires forall e :: e in events[1..n] ==> e.Arm? || e.Cancel?
    ensures Caused(events)
  {
    forall i | 0 <= i < |events| && (events[i].Arm? || events[i].Cancel?)
      ensures i > 0 && !events[i - 1].Tick?
    {
      if i < n {
        assert i > 1 ==> events[1..n][i - 2] in events[1..n];
      } else {
        assert events[n..][i - n] == events[i];
        assert i > n ==> events[n..][i - n - 1] == events[i - 1];
      }
    }
  }

  /** An identity that is not in use any more stays out of use. */
  lemma {:induction false} GoneStaysGone(c: Clock, last: Id, events: seq<Event>, script: Script, d: Clock, last': Id,
                                         id: Id)
    requires Obeyed(c, last, events, script, d, last') && id <= last && id !in c.alarms
    ensures id !in d.alarms && Fire(id) !in events
    decreases |events|
  {
    hide Obey;
    if events != [] {
      match events[0]
      case Tick => GoneStaysGone(After(c, Tick), last, events[1..], script, d, last', id);
      case Fire(k) =>
        var c', commands := After(c, Fire(k)), script(k, c.now);
        var o := Obey(c', last, commands);
        var n := 1 + |o.events|;
        OldAlarm(c', last, commands, id);
        LastGivenOut(c', last, commands);
        GoneStaysGone(o.clock, o.last, events[n..], script, d, last', id);
        NoFireIn(c', last, commands);
        assert events == [Fire(k)] + o.events + events[n..];
    }
  }

  lemma {:induction false} NoFireIn(c: Clock, last: Id, commands: seq<Command>)
    ensures forall e :: e in Obey(c, last, commands).events ==> e.Arm? || e.Cancel?
    decreases |commands|
  {
    if commands != [] {
      NoFireIn(c, last, commands[..|commands| - 1]);
    }
  }

  lemma {:induction false} TimeSkips(now: nat, events: seq<Event>, n: nat, i: nat)
    requires n <= i <= |events| && forall k :: 0 <= k < n ==> !events[k].Tick?
    ensures TimeAt(now, events, i) == TimeAt(now, events[n..], i - n)
    decreases n
  {
    if n == 0 {
      assert events[0..] == events;
    } else {
      TimeSkips(now, events[1..], n - 1, i - 1);
      assert events[1..][n - 1..] == events[n..];
    }
  }

  /** Clock b is the one in which event i, a firing, happens: its callback acts, and the history goes on from there. */
  predicate FiringAt(b: Clock, bLast: Id, events: seq<Event>, i: nat, script: Script, d: Clock, last': Id) {
    && i < |events| && events[i].Fire? && Known(b, bLast) && Allowed(b, events[i])
    && var o := Obey(After(b, events[i]), bLast, script(events[i].id, b.now));
    o.events <= events[i + 1..] && Obeyed(o.clock, o.last, events[i + 1 + |o.events|..], script, d, last')
  }

  lemma FiringLater(b: Clock, bLast: Id, events: seq<Event>, n: nat, i: nat, script: Script, d: Clock, last': Id)
    requires n <= i < |events| && FiringAt(b, bLast, events[n..], i - n, script, d, last')
    ensures FiringAt(b, bLast, events, i, script, d, last')
  {
    hide Obey;
    hide Obeyed;
    assert events[n..][i - n] == events[i] && events[n..][i - n + 1..] == events[i + 1..];
    var m := |Obey(After(b, events[i]), bLast, script(events[i].id, b.now)).events|;
    assert events[n..][i - n + 1 + m..] == events[i + 1 + m..];
  }

  /** The first firing of a history, with its callback. */
  lemma FirstFiring(c: Clock, last: Id, events: seq<Event>, script: Script, d: Clock, last': Id) returns (o: Outcome)
    requires Known(c, last) && Obeyed(c, last, events, script, d, last') && events != [] && events[0].Fire?
    ensures FiringAt(c, last, events, 0, script, d, last') && 1 + |o.events| <= |events|
    ensures var n := 1 + |o.events|;
      && Leads(c, events[..n], o.clock) && Known(o.clock, o.last) && o.clock.now == c.now
      && (forall m :: 0 <= m < n ==> !events[m].Tick?) && (forall m :: 1 <= m < n ==> !events[m].Fire?)
      && Obeyed(o.clock, o.last, events[n..], script, d, last')
  {
    hide Obey;
    var id := events[0].id;
    var c', commands := After(c, Fire(id)), script(id, c.now);
    o := Obey(c', last, commands);
    var n := 1 + |o.events|;
    FireKnown(c, last, id);
    ObeyLeads(c', last, commands);
    assert events[..n][1..] == o.events;
    assert forall m :: 1 <= m < n ==> events[m] == o.events[m - 1] && events[m] in o.events;
  }

  /** The state at a firing: the history before it, what its callback does, and the history after. */
  lemma {:induction false} AtFiring(c: Clock, last: Id, events: seq<Event>, script: Script, d: Clock, last': Id, i: nat)
      returns (b: Clock, bLast: Id)
    requires Known(c, last) && Obeyed(c, last, events, script, d, last') && i < |events| && events[i].Fire?
    ensures FiringAt(b, bLast, events, i, script, d, last')
    ensures Leads(c, events[..i], b) && b.now == TimeAt(c.now, events, i)
    decreases i
  {
    hide Obey;
    hide FiringAt;
    hide Obeyed;
    hide Leads;
    if i == 0 {
      var o := FirstFiring(c, last, events, script, d, last');
      b, bLast := c, last;
      assert Leads(c, events[..0], c) by { LeadsEmpty(c, events); }
    } else {
      var m, mLast, n := FirstPart(c, last, events, script, d, last', i);
      b, bLast := AtFiring(m, mLast, events[n..], script, d, last', i - n);
      assert events[..i] == events[..n] + events[n..][..i - n];
      LeadsJoin(c, events[..n], m, events[n..][..i - n], b);
      FiringLater(b, bLast, events, n, i, script, d, last');
    }
  }

  lemma LeadsEmpty(c: Clock, events: seq<Event>)
    ensures Leads(c, events[..0], c)
  {
  }

  /** The first tick of a history, or its first firing with its callback, up to event i, a firing further on. */
  lemma FirstPart(c: Clock, last: Id, events: seq<Event>, script: Script, d: Clock, last': Id, i: nat)
      returns (m: Clock, mLast: Id, n: nat)
    requires Known(c, last) && Obeyed(c, last, events, script, d, last') && 0 < i < |events| && events[i].Fire?
    ensures 0 < n <= i && Known(m, mLast) && Obeyed(m, mLast, events[n..], script, d, last')
    ensures Leads(c, events[..n], m) && TimeAt(c.now, events, i) == TimeAt(m.now, events[n..], i - n)
  {
    hide Obey;
    if events[0] == Tick {
      m, mLast, n := After(c, Tick), last, 1;
      LeadsStep(c, Tick);
      assert events[..1] == [Tick];
    } else {
      var o := FirstFiring(c, last, events, script, d, last');
      hide Obeyed;
      m, mLast, n := o.clock, o.last, 1 + |o.events|;
      TimeSkips(c.now, events, n, i);
    }
  }

  /** A timer whose callback cancels it does not fire again, and is not there at the end. */
  lemma SelfCancelEnds(c: Clock, last: Id, events: seq<Event>, script: Script, d: Clock, last': Id, i: nat)
    requires Known(c, last) && Obeyed(c, last, events, script, d, last') && i < |events| && events[i].Fire?
    requires CancelTimer(events[i].id) in script(events[i].id, TimeAt(c.now, events, i))
    ensures events[i].id !in d.alarms && Fire(events[i].id) !in events[i + 1..]
  {
    hide Obeyed;
    hide Obey;
    var id := events[i].id;
    var b, bLast := AtFiring(c, last, events, script, d, last', i);
    var b', commands := After(b, Fire(id)), script(id, b.now);
    var o := Obey(b', bLast, commands);
    FireKnown(b, bLast, id);
    CancelledIsGone(b', bLast, commands, id);
    LastGivenOut(b', bLast, commands);
    var rest := events[i + 1 + |o.events|..];
    GoneStaysGone(o.clock, o.last, rest, script, d, last', id);
    NoFireIn(b', bLast, commands);
    assert events[i + 1..] == o.events + rest;
  }

  /** A timer that a callback cancels, and that is not due at that very time, does not fire any more. */
  lemma CancelEnds(c: Clock, last: Id, events: seq<Event>, script: Script, d: Clock, last': Id, i: nat, id: Id)
      returns (b: Clock)
    requires Known(c, last) && Obeyed(c, last, events, script, d, last') && i < |events| && events[i].Fire?
    requires CancelTimer(id) in script(events[i].id, TimeAt(c.now, events, i))
    ensures b.now == TimeAt(c.now, events, i) && Leads(c, events[..i], b)
    ensures id in b.alarms && b.alarms[id].deadline > b.now ==> id !in d.alarms && Fire(id) !in events[i + 1..]
  {
    hide Obeyed;
    hide Obey;
    hide Leads;
    var bLast;
    b, bLast := AtFiring(c, last, events, script, d, last', i);
    var b', commands := After(b, events[i]), script(events[i].id, b.now);
    var o := Obey(b', bLast, commands);
    if id in b.alarms && b.alarms[id].deadline > b.now {
      CancelledIsGone(b', bLast, commands, id);
      LastGivenOut(b', bLast, commands);
      var rest := events[i + 1 + |o.events|..];
      GoneStaysGone(o.clock, o.last, rest, script, d, last', id);
      NoFireIn(b', bLast, commands);
      assert events[i + 1..] == o.events + rest;
    }
  }

  lemma {:induction false} LeadsSplit(c: Clock, events: seq<Event>, d: Clock, m: nat) returns (b: Clock)
    requires Leads(c, events, d) && m <= |events|
    ensures Leads(c, events[..m], b) && Leads(b, events[m..], d) && b.now == TimeAt(c.now, events, m)
    decreases m
  {
    if m == 0 {
      b := c;
      assert events[0..] == events;
    } else {
      b := LeadsSplit(After(c, events[0]), events[1..], d, m - 1);
      assert events[..m][1..] == events[1..][..m - 1] && events[1..][m - 1..] == events[m..];
    }
  }

  lemma {:induction false} TimeInRest(now: nat, events: seq<Event>, m: nat, i: nat)
    requires m <= i <= |events|
    ensures TimeAt(now, events, i) == TimeAt(TimeAt(now, events, m), events[m..], i - m)
    decreases m
  {
    if m == 0 {
      assert events[0..] == events;
    } else {
      TimeInRest(if events[0].Tick? then now + 1 else now, events[1..], m - 1, i - 1);
      assert events[1..][m - 1..] == events[m..];
    }
  }

  lemma {:induction false} AlarmStays(c: Clock, events: seq<Event>, d: Clock, id: Id)
    requires OnTime(c) && Leads(c, events, d) && id in c.alarms
    requires c.alarms[id].deadline > d.now && Cancel(id) !in events
    ensures id in d.alarms && d.alarms[id] == c.alarms[id]
    decreases |events|
  {
    if events != [] {
      ClockRuns(After(c, events[0]), events[1..], d);
      AlarmStays(After(c, events[0]), events[1..], d, id);
    }
  }

  /**
   Every timer that a callback arms is set to its deadline, and unless it is cancelled it fires at that time, or is
   still set if that time has not come.
   */
  lemma ArmedFires(c: Clock, last: Id, events: seq<Event>, script: Script, d: Clock, last': Id, i: nat, j: nat)
      returns (k: Id, m: nat, f: nat)
    requires OnTime(c) && Known(c, last) && Obeyed(c, last, events, script, d, last') && i < |events| && events[i].Fire?
    requires var commands := script(events[i].id, TimeAt(c.now, events, i)); j < |commands| && commands[j].ArmTimer?
    ensures var t := TimeAt(c.now, events, i);
      var command := script(events[i].id, t)[j];
      var deadline := Deadline(t, command.clock, command.timeout);
      && i < m < |events| && events[m] == Event.Arm(k, deadline, command.interval)
      && (Cancel(k) !in events[m + 1..] && deadline < d.now ==>
            m < f < |events| && events[f] == Fire(k) && TimeAt(c.now, events, f) == deadline)
      && (Cancel(k) !in events[m + 1..] && deadline > d.now ==>
            k in d.alarms && d.alarms[k] == Alarm(deadline, command.interval))
  {
    hide Obeyed;
    hide Obey;
    var b, bLast := AtFiring(c, last, events, script, d, last', i);
    var b', commands := After(b, events[i]), script(events[i].id, b.now);
    k := bLast + Arms(commands[..j]) + 1;
    ArmedIsTold(b', bLast, commands, j);
    var o := Obey(b', bLast, commands);
    var e := Event.Arm(k, Deadline(b.now, commands[j].clock, commands[j].timeout), commands[j].interval);
    var at :| 0 <= at < |o.events| && o.events[at] == e;
    m := i + 1 + at;
    assert events[i + 1..][at] == events[m];
    ObeyedLeads(c, last, events, script, d, last');
    f := AfterArming(c, events, d, m);
  }

  lemma AfterArming(c: Clock, events: seq<Event>, d: Clock, m: nat) returns (f: nat)
    requires OnTime(c) && Leads(c, events, d) && m < |events| && events[m].Arm?
    ensures var e := events[m];
      && (Cancel(e.id) !in events[m + 1..] && e.deadline < d.now ==>
            m < f < |events| && events[f] == Fire(e.id) && TimeAt(c.now, events, f) == e.deadline)
      && (Cancel(e.id) !in events[m + 1..] && e.deadline > d.now ==>
            e.id in d.alarms && d.alarms[e.id] == Alarm(e.deadline, e.interval))
  {
    f := 0;
    var e := events[m];
    var b := LeadsSplit(c, events, d, m);
    StaysOnTime(c, events[..m], b);
    assert events[m..][0] == e && events[m..][1..] == events[m + 1..];
    var b' := After(b, e);
    hide Leads;
    if Cancel(e.id) !in events[m + 1..] {
      if e.deadline < d.now {
        var g := FiresAtDeadline(b', events[m + 1..], d, e.id);
        f := m + 1 + g;
        TimeInRest(c.now, events, m, f);
      } else if e.deadline > d.now {
        AlarmStays(b', events[m + 1..], d, e.id);
      }
    }
  }
}
