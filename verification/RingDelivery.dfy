/**
 What the two sides of the ring in shared memory get done: exactly which reservations are granted, what is
 published, and that the consumer gets the next message whenever there is one.
 */
module RingDelivery {
  import Ring
  import opened SharedRing

  // ---------- reservations ----------

  lemma {:induction false} SlotIsRemainder(p: nat, n: nat)
    requires n > 0
    ensures Ring.Slot(p, n) == p % n
  {
    if p >= n {
      SlotIsRemainder(p - n, n);
      RemainderAgain(p - n, n);
    }
  }

  lemma RemainderAgain(p: nat, n: nat)
    requires n > 0
    ensures (p + n) % n == p % n
  {
    var q := p / n;
    assert p == n * q + p % n;
    assert p + n == n * (q + 1) + p % n;
    RemainderUnique(p + n, n, q + 1, p % n);
  }

  /** Different multiples are at least one multiple apart. */
  lemma Apart(n: nat, a: nat, b: nat)
    ensures a < b ==> n * a + n <= n * b
  {
    if a < b {
      var d := b - a - 1;
      assert b == a + 1 + d;
      assert n * b == n * a + n + n * d;
    }
  }

  lemma RemainderUnique(p: nat, n: nat, q: nat, r: nat)
    requires n > 0 && p == n * q + r && r < n
    ensures p % n == r
  {
    var q', r' := p / n, p % n;
    assert p == n * q' + r';
    Apart(n, q', q);
    Apart(n, q, q');
  }

  /**
   Where a frame of this size goes: at the write cursor if it ends at or before the end of the buffer there, otherwise
   at the next multiple of the capacity.
   */
  predicate Place(n: nat, write: nat, size: nat, start: nat)
    requires n > 0
  {
    if write % n + size <= n then start == write else write < start <= write + n && start % n == 0
  }

  /** The place does not reach what had not been read when the producer looked. */
  predicate Free(n: nat, seen: nat, size: nat, start: nat) {
    start + size <= seen + n
  }

  lemma PlaceIsTarget(s: State, size: nat, start: nat)
    requires |s.words| > 0
    ensures Place(|s.words|, s.write, size, start) <==> start == Target(s, size)
  {
    hide Ring.Slot;
    var n := |s.words|;
    SlotIsRemainder(s.write, n);
    if Tail(s) < size {
      NextMultiple(s.write, n);
      if s.write < start <= s.write + n && start % n == 0 {
        OneMultiple(s.write, start, s.write + Tail(s), n);
      }
    }
  }

  lemma NextMultiple(p: nat, n: nat)
    requires n > 0
    ensures (p + n - p % n) % n == 0 && p < p + n - p % n <= p + n
  {
    var q := p / n;
    assert p == n * q + p % n;
    RemainderUnique(p + n - p % n, n, q + 1, 0);
  }

  lemma OneMultiple(p: nat, a: nat, b: nat, n: nat)
    requires n > 0 && p < a <= p + n && p < b <= p + n && a % n == 0 && b % n == 0
    ensures a == b
  {
    var x, y := a / n, b / n;
    assert a == n * x && b == n * y;
    Apart(n, x, y);
    Apart(n, y, x);
  }

  /**
   The answer to a reservation, for every state and every earlier value of the read cursor: "invalid" exactly if the
   frame is longer than the capacity less one word, otherwise "full" exactly if its place is not free.
   */
  lemma ReserveExactly(s: State, seen: nat, length: nat)
    requires Inv(s) && seen <= s.read
    ensures var n, size, answer := |s.words|, FrameSize(length), ReserveAnswer(s, seen, length);
      && (answer == Invalid <==> size > n - 1)
      && (answer == Full <==>
            size <= n - 1 && forall start :: Place(n, s.write, size, start) ==> !Free(n, seen, size, start))
      && (answer == Ok <==>
            size <= n - 1 && exists start :: Place(n, s.write, size, start) && Free(n, seen, size, start))
  {
    hide Ring.Slot;
    hide Laid;
    hide Messages;
    hide Place;
    var n, size := |s.words|, FrameSize(length);
    forall start: nat
      ensures Place(n, s.write, size, start) <==> start == Target(s, size)
    {
      PlaceIsTarget(s, size, start);
    }
    assert Place(n, s.write, size, Target(s, size));
  }

  /** In every run a granted reservation is of the free place of its frame, and a refused one changes nothing. */
  lemma ReserveGives(run: seq<State>, actions: seq<Action>, i: nat)
    requires IsRun(run, actions) && i < |actions| && actions[i].Reserve?
    ensures Enabled(run[i], actions[i]) && run[i].producer.Looked? && run[i].producer.seen <= run[i].read
    ensures var s, s', length := run[i], run[i + 1], actions[i].length;
      var n, size, seen := |s.words|, FrameSize(length), s.producer.seen;
      && (forall start :: size < n && Place(n, s.write, size, start) && Free(n, seen, size, start) ==>
            s'.producer == Reserved(start, length))
      && (!(exists start :: size < n && Place(n, s.write, size, start) && Free(n, seen, size, start)) ==>
            s' == s.(producer := Idle))
  {
    hide Ring.Slot;
    hide Laid;
    hide Messages;
    hide Place;
    hide ConsumerOk;
    RunInv(run, actions, i);
    var s, length := run[i], actions[i].length;
    assert Enabled(s, actions[i]) && run[i + 1] == Next(s, actions[i]);
    ReserveExactly(s, s.producer.seen, length);
    forall start: nat | Place(|s.words|, s.write, FrameSize(length), start)
      ensures start == Target(s, FrameSize(length))
    {
      PlaceIsTarget(s, FrameSize(length), start);
    }
  }

  // ---------- what is published ----------

  predicate Writing(s: State) {
    s.producer.Reserved? || s.producer.Sealed?
  }

  /** Word i of the frame under way holds these bits. */
  predicate Holds(s: State, pos: nat, i: nat, bits: nat) {
    && |s.words| > 0 && Writing(s) && s.producer.pos == pos && Ring.Slot(pos, |s.words|) + 1 + i < |s.words|
    && s.words[Ring.Slot(pos, |s.words|) + 1 + i] == Data(bits)
  }

  predicate Ending(a: Action) {
    a.Publish? || a.Cancel?
  }

  lemma HoldsOn(s: State, a: Action, pos: nat, i: nat, bits: nat)
    requires Enabled(s, a) && Holds(s, pos, i, bits) && !Ending(a) && !(a.PutWord? && a.i == i)
    ensures Holds(Next(s, a), pos, i, bits)
  {
    hide Ring.Slot;
  }

  lemma {:induction false} HoldsLong(run: seq<State>, actions: seq<Action>, m: nat, j: nat, i: nat, bits: nat)
    requires IsRun(run, actions) && m < j < |run| && actions[m] == PutWord(i, bits)
    requires forall x :: m < x < j ==> !Ending(actions[x]) && !(actions[x].PutWord? && actions[x].i == i)
    ensures Writing(run[m]) && Holds(run[j], run[m].producer.pos, i, bits)
    decreases j
  {
    hide Ring.Slot;
    assert Enabled(run[j - 1], actions[j - 1]) && run[j - 1 + 1] == Next(run[j - 1], actions[j - 1]);
    if m < j - 1 {
      hide Next;
      HoldsLong(run, actions, m, j - 1, i, bits);
      HoldsOn(run[j - 1], actions[j - 1], run[m].producer.pos, i, bits);
    }
  }

  /** The sealing of the frame that is about to be published. */
  lemma {:induction false} SealedBy(run: seq<State>, actions: seq<Action>, j: nat) returns (q: nat)
    requires IsRun(run, actions) && j < |run| && run[j].producer.Sealed?
    ensures q < j && actions[q].Seal? && Enabled(run[q], actions[q])
    ensures run[j].producer == Sealed(run[q].producer.pos, actions[q].length, actions[q].kind)
    ensures forall x :: q < x < j ==> !Ending(actions[x]) && !actions[x].PutWord?
    decreases j
  {
    hide Ring.Slot;
    assert j > 0;
    var s, a := run[j - 1], actions[j - 1];
    assert Enabled(s, a) && run[j - 1 + 1] == Next(s, a);
    if a.Seal? {
      q := j - 1;
    } else {
      SealedBefore(s, a);
      hide Next;
      q := SealedBy(run, actions, j - 1);
    }
  }

  lemma SealedBefore(s: State, a: Action)
    requires Enabled(s, a) && Next(s, a).producer.Sealed? && !a.Seal?
    ensures s.producer == Next(s, a).producer && !Ending(a) && !a.PutWord?
  {
    hide Ring.Slot;
  }

  /**
   In every run, a published message has the kind and length its frame was sealed with, and each word of it is the one
   last written there since the reservation.
   */
  lemma PublishedAsWritten(run: seq<State>, actions: seq<Action>, j: nat) returns (q: nat, body: seq<Word>)
    requires IsRun(run, actions) && j < |actions| && actions[j] == Publish
    ensures q < j && actions[q].Seal? && |body| == BodySize(actions[q].length)
    ensures run[j + 1].sent == run[j].sent + [Message(actions[q].kind, actions[q].length, body)]
    ensures forall m, i, bits ::
      0 <= m < q && 0 <= i < |body| && actions[m] == PutWord(i, bits)
      && (forall x :: m < x < j ==> !Ending(actions[x]) && !(actions[x].PutWord? && actions[x].i == i))
      ==> body[i] == Data(bits)
  {
    hide Ring.Slot;
    var s := run[j];
    assert Enabled(s, Publish) && run[j + 1] == Next(s, Publish);
    q := SealedBy(run, actions, j);
    var start := Ring.Slot(s.producer.pos, |s.words|) + 1;
    body := s.words[start..start + BodySize(s.producer.length)];
    forall m: nat, i: nat, bits: nat | m < q && i < |body| && actions[m] == PutWord(i, bits)
      && forall x :: m < x < j ==> !Ending(actions[x]) && !(actions[x].PutWord? && actions[x].i == i)
      ensures body[i] == Data(bits)
    {
      HoldsLong(run, actions, m, j, i, bits);
      assert body[i] == s.words[start + i];
    }
  }

  // ---------- what is received ----------

  /** With something unread, the consumer that has just looked finds the first frame. */
  lemma PeekFinds(s: State)
    requires Inv(s) && s.consumer.Loaded? && s.consumer.seen == s.write && s.read < s.write
    ensures s.frames != []
    ensures s.frames[0].Carry? ==>
      Next(s, Peek) == s.(consumer := Reading(s.frames[0].message.kind, s.frames[0].message.length, []))
    ensures s.frames[0].Skip? ==> |s.frames| > 1 && s.frames[1].Carry?
    ensures s.frames[0].Skip? ==>
      Next(s, Peek) == s.(read := s.read + s.frames[0].size, consumer := Skipped, frames := s.frames[1..])
  {
    hide Ring.Slot;
    hide Laid;
    hide Messages;
    hide BodySize;
    PeekIntact(s);
    LaidFirst(s.words, s.frames, s.read, s.write);
    FirstFrame(s);
  }

  lemma UnreadNonempty(s: State)
    requires Inv(s) && s.frames != []
    ensures s.read < s.write
  {
    hide Ring.Slot;
    hide Messages;
    LaidUpTo(s.words, s.frames, s.read, s.write);
  }

  lemma FramesWhenUnread(s: State)
    requires Inv(s) && s.read < s.write
    ensures s.frames != []
  {
    hide Ring.Slot;
    hide Messages;
  }

  predicate ByConsumer(a: Action) {
    a.LoadWrite? || a.Peek? || a.GetWord? || a.Consume?
  }

  /** The run goes on with steps of the consumer only. */
  ghost predicate ConsumerGoesOn(run: seq<State>, actions: seq<Action>, run': seq<State>, actions': seq<Action>) {
    IsRun(run', actions') && |run'| > 0 && run <= run' && actions <= actions' &&
    forall i :: |actions| <= i < |actions'| ==> ByConsumer(actions'[i])
  }

  lemma Look(run: seq<State>, actions: seq<Action>) returns (run': seq<State>, actions': seq<Action>)
    requires IsRun(run, actions)
    requires var s := run[|run| - 1]; (s.consumer.Waiting? || s.consumer.Skipped?) && s.read < s.write
    ensures ConsumerGoesOn(run, actions, run', actions')
    ensures var s, t := run[|run| - 1], run'[|run'| - 1];
      && s.frames != []
      && (s.frames[0].Carry? ==>
            t == s.(consumer := Reading(s.frames[0].message.kind, s.frames[0].message.length, [])))
      && (s.frames[0].Skip? ==> |s.frames| > 1 && s.frames[1].Carry?)
      && (s.frames[0].Skip? ==>
            t == s.(read := s.read + s.frames[0].size, consumer := Skipped, frames := s.frames[1..]))
  {
    hide Inv;
    hide Ring.Slot;
    var s := run[|run| - 1];
    RunInv(run, actions, |run| - 1);
    assert |s.words| > 0 by { HasWords(s); }
    run', actions' := Extend(run, actions, LoadWrite);
    RunInv(run', actions', |run'| - 1);
    var m := run'[|run'| - 1];
    PeekFinds(m);
    hide Next;
    run', actions' := Extend(run', actions', Peek);
  }

  lemma HasWords(s: State)
    requires Inv(s)
    ensures |s.words| > 0
  {
  }

  lemma ReadWhole(run: seq<State>, actions: seq<Action>) returns (run': seq<State>, actions': seq<Action>)
    requires IsRun(run, actions)
    requires var s := run[|run| - 1];
      s.frames != [] && s.frames[0].Carry? &&
      s.consumer == Reading(s.frames[0].message.kind, s.frames[0].message.length, [])
    ensures ConsumerGoesOn(run, actions, run', actions')
    ensures var s, t := run[|run| - 1], run'[|run'| - 1];
      && t.received == s.received + [s.frames[0].message] && t.consumer == Waiting
      && t.sent == s.sent && t.producer == s.producer && t.words == s.words && t.write == s.write
  {
    hide Ring.Slot;
    hide Inv;
    hide BodySize;
    var s := run[|run| - 1];
    run', actions' := ReadOn(run, actions);
    var m := run'[|run'| - 1];
    RunInv(run', actions', |run'| - 1);
    GotWhole(m);
    assert |m.words| > 0 by { HasWords(m); }
    run', actions' := Extend(run', actions', Consume);
  }

  lemma GotWhole(s: State)
    requires Inv(s) && s.consumer.Reading? && |s.consumer.got| == BodySize(s.consumer.length)
    ensures s.frames != [] && s.frames[0].Carry?
    ensures s.frames[0].message == Message(s.consumer.kind, s.consumer.length, s.consumer.got)
  {
    hide Ring.Slot;
    hide Messages;
    hide BodySize;
    LaidFirst(s.words, s.frames, s.read, s.write);
  }

  lemma NextMessage(s: State)
    requires Inv(s) && s.frames != []
    ensures |s.received| < |s.sent| && s.received <= s.sent
    ensures s.frames[0].Carry? ==> s.sent[|s.received|] == s.frames[0].message
    ensures s.frames[0].Skip? ==> |s.frames| > 1 && (s.frames[1].Carry? ==> s.sent[|s.received|] == s.frames[1].message)
  {
    hide Ring.Slot;
    hide FrameAt;
    FirstFrame(s);
    if s.frames[0].Skip? {
      assert Messages(s.frames[1..]) == [s.frames[1].message] + Messages(s.frames[1..][1..]);
    }
  }

  /**
   In every run, whenever something is unread and the consumer is between calls, its own steps bring the next message,
   however the frames lie; nothing else changes hands.
   */
  lemma NextIsReceived(run: seq<State>, actions: seq<Action>) returns (run': seq<State>, actions': seq<Action>)
    requires IsRun(run, actions) && |run| > 0
    requires var s := run[|run| - 1]; s.consumer.Waiting? && s.read < s.write
    ensures ConsumerGoesOn(run, actions, run', actions')
    ensures var s, t := run[|run| - 1], run'[|run'| - 1];
      && |s.received| < |s.sent| && t.received == s.sent[..|s.received| + 1] && t.consumer == Waiting
      && t.sent == s.sent && t.producer == s.producer && t.words == s.words && t.write == s.write
  {
    hide IsRun;
    hide Inv;
    hide Ring.Slot;
    var s := run[|run| - 1];
    RunInv(run, actions, |run| - 1);
    FramesWhenUnread(s);
    NextMessage(s);
    run', actions' := Look(run, actions);
    if s.frames[0].Skip? {
      var m := run'[|run'| - 1];
      RunInv(run', actions', |run'| - 1);
      UnreadNonempty(m);
      run', actions' := Look(run', actions');
    }
    run', actions' := ReadWhole(run', actions');
    assert s.received + [s.sent[|s.received|]] == s.sent[..|s.received| + 1];
  }
}
