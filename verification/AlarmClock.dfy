/**
 What the timers of an event loop promise, without any wheel: a set of alarms and a clock that ticks only
 when nothing is due. The timing wheel is proved to emit only histories this clock allows.
 */
module AlarmClock {

  type Id = nat

  datatype Alarm = Alarm(deadline: nat, interval: nat)

  datatype Clock = Clock(now: nat, alarms: map<Id, Alarm>)

  datatype Event = Tick | Fire(id: Id) | Arm(id: Id, deadline: nat, interval: nat) | Cancel(id: Id)

  /** An alarm fires at its deadline, and the clock does not move past an alarm that has yet to fire. */
  predicate Allowed(c: Clock, e: Event) {
    match e
    case Tick => forall id :: id in c.alarms ==> c.now < c.alarms[id].deadline
    case Fire(id) => id in c.alarms && c.alarms[id].deadline == c.now
    case Arm(id, deadline, _) => id !in c.alarms && c.now < deadline
    case Cancel(id) => id in c.alarms
  }

  function After(c: Clock, e: Event): Clock
    requires Allowed(c, e)
  {
    match e
    case Tick => c.(now := c.now + 1)
    case Fire(id) =>
      if c.alarms[id].interval == 0 then c.(alarms := c.alarms - {id})
      else c.(alarms := c.alarms[id := Alarm(c.now + c.alarms[id].interval, c.alarms[id].interval)])
    case Arm(id, deadline, interval) => c.(alarms := c.alarms[id := Alarm(deadline, interval)])
    case Cancel(id) => c.(alarms := c.alarms - {id})
  }

  /** The events lead from clock c to clock d. */
  predicate Leads(c: Clock, events: seq<Event>, d: Clock)
    decreases |events|
  {
    if events == [] then c == d
    else Allowed(c, events[0]) && Leads(After(c, events[0]), events[1..], d)
  }

  lemma {:induction false} LeadsJoin(c: Clock, first: seq<Event>, d: Clock, second: seq<Event>, e: Clock)
    requires Leads(c, first, d) && Leads(d, second, e)
    ensures Leads(c, first + second, e)
    decreases |first|
  {
    if first == [] {
      assert first + second == second;
    } else {
      assert (first + second)[1..] == first[1..] + second;
      LeadsJoin(After(c, first[0]), first[1..], d, second, e);
    }
  }

  lemma LeadsStep(c: Clock, e: Event)
    requires Allowed(c, e)
    ensures Leads(c, [e], After(c, e))
  {
    assert [e][1..] == [];
    assert Leads(After(c, e), [], After(c, e));
  }

  /** Only a callback acts: what is armed or cancelled follows a firing, with no tick between. */
  predicate Caused(events: seq<Event>) {
    forall i :: 0 <= i < |events| && (events[i].Arm? || events[i].Cancel?) ==> i > 0 && !events[i - 1].Tick?
  }

  /** Nothing happens before the first deadline. */
  lemma {:induction false} QuietUntilDue(c: Clock, events: seq<Event>, d: Clock)
    requires Leads(c, events, d) && Caused(events) && forall id :: id in c.alarms ==> d.now < c.alarms[id].deadline
    ensures d.alarms == c.alarms && forall i :: 0 <= i < |events| ==> events[i] == Tick
    decreases |events|
  {
    if events != [] {
      ClockRuns(c, events, d);
      assert events[0] == Tick;
      var rest := events[1..];
      forall i | 0 <= i < |rest| && (rest[i].Arm? || rest[i].Cancel?)
        ensures i > 0 && !rest[i - 1].Tick?
      {
        assert rest[i] == events[i + 1];
        assert i > 0 ==> rest[i - 1] == events[i];
      }
      QuietUntilDue(After(c, events[0]), rest, d);
      assert forall i :: 0 < i < |events| ==> events[i] == rest[i - 1];
    }
  }

  lemma {:induction false} ClockRuns(c: Clock, events: seq<Event>, d: Clock)
    requires Leads(c, events, d)
    ensures c.now <= d.now
    decreases |events|
  {
    if events != [] {
      ClockRuns(After(c, events[0]), events[1..], d);
    }
  }

  /** No alarm is overdue. */
  predicate OnTime(c: Clock) {
    forall id :: id in c.alarms ==> c.now <= c.alarms[id].deadline
  }

  lemma {:induction false} StaysOnTime(c: Clock, events: seq<Event>, d: Clock)
    requires OnTime(c) && Leads(c, events, d)
    ensures OnTime(d) && c.now <= d.now
    decreases |events|
  {
    if events != [] {
      StaysOnTime(After(c, events[0]), events[1..], d);
    }
  }

  /** The time at which event i happens. */
  function TimeAt(now: nat, events: seq<Event>, i: nat): nat
    requires i <= |events|
    decreases i
  {
    if i == 0 then now else TimeAt(if events[0].Tick? then now + 1 else now, events[1..], i - 1)
  }

  /**
   An armed alarm that is not cancelled fires at its deadline, not before, and not a second time at that
   deadline: the first event about it is its firing, at exactly that time.
   */
  lemma {:induction false} FiresAtDeadline(c: Clock, events: seq<Event>, d: Clock, id: Id) returns (i: nat)
    requires OnTime(c) && Leads(c, events, d) && id in c.alarms && c.alarms[id].deadline < d.now
    requires Cancel(id) !in events
    ensures i < |events| && events[i] == Fire(id) && TimeAt(c.now, events, i) == c.alarms[id].deadline
    ensures Fire(id) !in events[..i]
    ensures forall j :: i < j < |events| && events[j] == Fire(id) ==> TimeAt(c.now, events, j) > c.alarms[id].deadline
    decreases |events|
  {
    var e := events[0];
    if e == Fire(id) {
      i := 0;
      forall j | i < j < |events| && events[j] == Fire(id)
        ensures TimeAt(c.now, events, j) > c.alarms[id].deadline
      {
        FiresLater(After(c, e), events[1..], d, id, c.now, j - 1);
      }
    } else {
      var next := After(c, e);
      assert id in next.alarms && next.alarms[id] == c.alarms[id];
      assert OnTime(next);
      assert Cancel(id) !in events[1..];
      var j := FiresAtDeadline(next, events[1..], d, id);
      i := j + 1;
      assert events[i] == events[1..][j];
      assert events[..i] == [e] + events[1..][..j];
      forall k | i < k < |events| && events[k] == Fire(id)
        ensures TimeAt(c.now, events, k) > c.alarms[id].deadline
      {
        assert events[1..][k - 1] == Fire(id);
      }
    }
  }

  /** An alarm that is not armed for time t or before does not fire at time t or before. */
  lemma {:induction false} FiresLater(c: Clock, events: seq<Event>, d: Clock, id: Id, t: nat, j: nat)
    requires Leads(c, events, d) && t <= c.now && (id in c.alarms ==> t < c.alarms[id].deadline)
    requires j < |events| && events[j] == Fire(id)
    ensures TimeAt(c.now, events, j) > t
    decreases j
  {
    if j > 0 {
      FiresLater(After(c, events[0]), events[1..], d, id, t, j - 1);
    }
  }

  /** The times at which an alarm fires, in order. */
  function FiringTimes(now: nat, events: seq<Event>, id: Id): seq<nat>
    decreases |events|
  {
    if events == [] then []
    else if events[0] == Tick then FiringTimes(now + 1, events[1..], id)
    else if events[0] == Fire(id) then [now] + FiringTimes(now, events[1..], id)
    else FiringTimes(now, events[1..], id)
  }

  /**
   A repeating alarm that is not cancelled fires at its deadline and at every whole number of intervals after
   it up to the end of the history, once each, and at no other time: its next deadline is the first one left.
   */
  lemma {:induction false} FiresEveryInterval(c: Clock, events: seq<Event>, d: Clock, id: Id)
    requires OnTime(c) && Leads(c, events, d) && id in c.alarms && c.alarms[id].interval > 0
    requires Cancel(id) !in events
    ensures var first, interval, times := c.alarms[id].deadline, c.alarms[id].interval, FiringTimes(c.now, events, id);
      && (forall k :: 0 <= k < |times| ==> times[k] == first + k * interval)
      && id in d.alarms && d.alarms[id] == Alarm(first + |times| * interval, interval)
      && d.now <= d.alarms[id].deadline
    decreases |events|
  {
    if events != [] {
      var e := events[0];
      var next := After(c, e);
      assert id in next.alarms;
      assert OnTime(next);
      assert Cancel(id) !in events[1..];
      FiresEveryInterval(next, events[1..], d, id);
      if e == Fire(id) {
        var interval, rest := c.alarms[id].interval, FiringTimes(c.now, events[1..], id);
        assert FiringTimes(c.now, events, id) == [c.now] + rest;
        forall k | 0 <= k < |rest|
          ensures rest[k] == c.now + (k + 1) * interval
        {
          assert (k + 1) * interval == k * interval + interval;
        }
        assert (|rest| + 1) * interval == |rest| * interval + interval;
      }
    }
  }

  /** A firing never comes before or after the deadline it answers. */
  lemma {:induction false} FiresOnlyAtDeadline(c: Clock, events: seq<Event>, d: Clock, i: nat) returns (at: Clock)
    requires Leads(c, events, d) && i < |events| && events[i].Fire?
    ensures Leads(c, events[..i], at) && at.now == TimeAt(c.now, events, i)
    ensures events[i].id in at.alarms && at.alarms[events[i].id].deadline == TimeAt(c.now, events, i)
    decreases i
  {
    if i == 0 {
      at := c;
    } else {
      at := FiresOnlyAtDeadline(After(c, events[0]), events[1..], d, i - 1);
      assert events[..i][1..] == events[1..][..i - 1];
    }
  }
}
