/**
 The single-producer single-consumer byte ring in shared memory, in words of eight bytes: the alignment of every
 frame. A frame is a header word and its payload; a frame never crosses the end of the buffer, a wrap marker
 fills the space that is left there.

 Each side reads the cursor of the other side in a step of its own and goes on with what it saw, however old that
 is by then. `frames`, `sent` and `received` are not in the program: the frames between the two cursors, and the
 messages that were published and read so far.
 */
module SharedRing {
  import opened Ring

  datatype Word = Head(length: nat, kind: nat, wrap: bool) | Data(bits: nat)

  datatype Message = Message(kind: nat, length: nat, body: seq<Word>)

  datatype Frame = Skip(size: nat) | Carry(message: Message)

  datatype Producer =
    | Idle
    | Looked(seen: nat)
    | Reserved(pos: nat, length: nat)
    | Sealed(pos: nat, length: nat, kind: nat)

  datatype Consumer =
    | Waiting
    | Skipped
    | Loaded(seen: nat, again: bool)
    | Reading(kind: nat, length: nat, got: seq<Word>)

  datatype State = State(
    words: seq<Word>,
    write: nat,
    read: nat,
    producer: Producer,
    consumer: Consumer,
    frames: seq<Frame>,
    sent: seq<Message>,
    received: seq<Message>)

  datatype Action =
    | LoadRead
    | Reserve(length: nat)
    | PutWord(i: nat, bits: nat)
    | Seal(kind: nat, length: nat)
    | Publish
    | Cancel
    | LoadWrite
    | Peek
    | GetWord
    | Consume

  datatype Answer = Ok | Invalid | Full | Nothing | Corrupt

  function BodySize(length: nat): nat {
    (length + 7) / 8
  }

  function FrameSize(length: nat): nat {
    1 + BodySize(length)
  }

  function SizeOf(f: Frame): nat {
    match f
    case Skip(size) => size
    case Carry(m) => FrameSize(m.length)
  }

  predicate Init(s: State) {
    && |s.words| >= 1 && s.write == 0 && s.read == 0 && s.producer == Idle && s.consumer == Waiting
    && s.frames == [] && s.sent == [] && s.received == []
  }

  function At(words: seq<Word>, p: nat): Word
    requires |words| > 0
  {
    words[Slot(p, |words|)]
  }

  /** What is left up to the end of the buffer. */
  function Tail(s: State): (t: nat)
    requires |s.words| > 0
    ensures t > 0
  {
    |s.words| - Slot(s.write, |s.words|)
  }

  /** Where a frame of this size goes: here, or at the start of the buffer if it does not fit before the end. */
  function Target(s: State, size: nat): nat
    requires |s.words| > 0
  {
    if Tail(s) < size then s.write + Tail(s) else s.write
  }

  function ReserveAnswer(s: State, seen: nat, length: nat): Answer
    requires |s.words| > 0
  {
    var n, size := |s.words|, FrameSize(length);
    if size > n - 1 then Invalid
    else if Target(s, size) - seen > n || n - (Target(s, size) - seen) < size then Full
    else Ok
  }

  /** What the consumer makes of the word under its cursor. */
  function PeekAnswer(s: State): Answer
    requires |s.words| > 0 && s.consumer.Loaded?
  {
    var n, offset, word := |s.words|, Slot(s.read, |s.words|), At(s.words, s.read);
    if s.read == s.consumer.seen then Nothing
    else if s.read > s.consumer.seen || word.Data? then Corrupt
    else if word.wrap then (if offset == 0 || s.consumer.again then Corrupt else Ok)
    else if FrameSize(word.length) > s.consumer.seen - s.read || offset + FrameSize(word.length) > n then Corrupt
    else Ok
  }

  predicate Enabled(s: State, a: Action) {
    |s.words| > 0 &&
    match a
    case LoadRead => s.producer.Idle?
    case Reserve(_) => s.producer.Looked?
    case PutWord(i, _) =>
      && s.producer.Reserved? && i < BodySize(s.producer.length)
      && Slot(s.producer.pos, |s.words|) + 1 + i < |s.words|
    case Seal(_, length) => s.producer.Reserved? && length <= s.producer.length
    case Publish => s.producer.Sealed? && Slot(s.producer.pos, |s.words|) + FrameSize(s.producer.length) <= |s.words|
    case Cancel => s.producer.Reserved?
    case LoadWrite => s.consumer.Waiting? || s.consumer.Skipped?
    case Peek => s.consumer.Loaded?
    case GetWord =>
      && s.consumer.Reading? && |s.consumer.got| < BodySize(s.consumer.length)
      && Slot(s.read, |s.words|) + 1 + |s.consumer.got| < |s.words|
    case Consume => s.consumer.Reading? && |s.consumer.got| == BodySize(s.consumer.length) && s.frames != []
  }

  function Reserving(s: State, length: nat): State
    requires |s.words| > 0 && s.producer.Looked?
  {
    var size := FrameSize(length);
    if ReserveAnswer(s, s.producer.seen, length) != Ok then s.(producer := Idle)
    else if Tail(s) < size then
      s.(words := s.words[Slot(s.write, |s.words|) := Head(8 * (Tail(s) - 1), 0, true)],
         producer := Reserved(Target(s, size), length))
    else s.(producer := Reserved(s.write, length))
  }

  function Publishing(s: State): State
    requires Enabled(s, Publish)
  {
    var p := s.producer;
    var start := Slot(p.pos, |s.words|) + 1;
    var m := Message(p.kind, p.length, s.words[start..start + BodySize(p.length)]);
    s.(write := p.pos + FrameSize(p.length), producer := Idle, sent := s.sent + [m],
       frames := s.frames + (if p.pos > s.write then [Skip(p.pos - s.write)] else []) + [Carry(m)])
  }

  function Peeking(s: State): State
    requires |s.words| > 0 && s.consumer.Loaded?
  {
    var word := At(s.words, s.read);
    if PeekAnswer(s) != Ok || word.Data? then s.(consumer := Waiting)
    else if word.wrap then
      s.(read := s.read + |s.words| - Slot(s.read, |s.words|), consumer := Skipped,
         frames := if s.frames == [] then [] else s.frames[1..])
    else s.(consumer := Reading(word.kind, word.length, []))
  }

  function Next(s: State, a: Action): State
    requires Enabled(s, a)
  {
    var n := |s.words|;
    match a
    case LoadRead => s.(producer := Looked(s.read))
    case Reserve(length) => Reserving(s, length)
    case PutWord(i, bits) => s.(words := s.words[Slot(s.producer.pos, n) + 1 + i := Data(bits)])
    case Seal(kind, length) =>
      s.(words := s.words[Slot(s.producer.pos, n) := Head(length, kind, false)],
         producer := Sealed(s.producer.pos, length, kind))
    case Publish => Publishing(s)
    case Cancel => s.(producer := Idle)
    case LoadWrite => s.(consumer := Loaded(s.write, s.consumer.Skipped?))
    case Peek => Peeking(s)
    case GetWord =>
      s.(consumer := s.consumer.(got := s.consumer.got + [s.words[Slot(s.read, n) + 1 + |s.consumer.got|]]))
    case Consume =>
      var c := s.consumer;
      s.(read := s.read + FrameSize(c.length), consumer := Waiting, frames := s.frames[1..],
         received := s.received + [Message(c.kind, c.length, c.got)])
  }

  // ---------- invariant ----------

  predicate WrapAt(words: seq<Word>, p: nat)
    requires |words| > 0
  {
    Slot(p, |words|) > 0 && At(words, p).Head? && At(words, p).wrap
  }

  predicate FrameAt(words: seq<Word>, f: Frame, p: nat) {
    && |words| > 0 && SizeOf(f) > 0 && Slot(p, |words|) + SizeOf(f) <= |words|
    && (match f
        case Skip(size) => Slot(p, |words|) + size == |words| && WrapAt(words, p)
        case Carry(m) =>
          && |m.body| == BodySize(m.length) && At(words, p) == Head(m.length, m.kind, false)
          && forall i :: 0 <= i < |m.body| ==> At(words, p + 1 + i) == m.body[i])
  }

  /** The frames lie one after the other from p to q, each as it was written. */
  predicate Laid(words: seq<Word>, frames: seq<Frame>, p: nat, q: nat)
    decreases |frames|
  {
    if frames == [] then p == q
    else
      && FrameAt(words, frames[0], p) && Laid(words, frames[1..], p + SizeOf(frames[0]), q)
      && (frames[0].Skip? ==> |frames| > 1 && frames[1].Carry?)
  }

  function Messages(frames: seq<Frame>): seq<Message> {
    if frames == [] then []
    else (if frames[0].Carry? then [frames[0].message] else []) + Messages(frames[1..])
  }

  /** The place of a reserved frame: free, in one piece, and behind the wrap marker if it is not at the cursor. */
  predicate Placed(s: State, pos: nat, size: nat)
    requires |s.words| > 0
  {
    && s.write <= pos && pos + size <= s.read + |s.words| && Slot(pos, |s.words|) + size <= |s.words| && size > 0
    && (s.write < pos ==> WrapAt(s.words, s.write) && pos == s.write + Tail(s))
  }

  predicate ProducerOk(s: State)
    requires |s.words| > 0
  {
    match s.producer
    case Idle => true
    case Looked(seen) => seen <= s.read
    case Reserved(pos, length) => Placed(s, pos, FrameSize(length))
    case Sealed(pos, length, kind) => Placed(s, pos, FrameSize(length)) && At(s.words, pos) == Head(length, kind, false)
  }

  /** The cursor value lies between two frames. */
  predicate Boundary(s: State, seen: nat, k: nat) {
    k <= |s.frames| && Laid(s.words, s.frames[..k], s.read, seen) && Laid(s.words, s.frames[k..], seen, s.write)
  }

  ghost predicate ConsumerOk(s: State) {
    match s.consumer
    case Waiting => true
    case Skipped => s.frames != [] && s.frames[0].Carry?
    case Loaded(seen, again) =>
      && (exists k: nat :: Boundary(s, seen, k))
      && (again ==> s.frames != [] && s.frames[0].Carry? && s.read < seen)
    case Reading(kind, length, got) =>
      && s.frames != [] && s.frames[0].Carry?
      && s.frames[0].message.kind == kind && s.frames[0].message.length == length
      && got <= s.frames[0].message.body
  }

  ghost predicate Inv(s: State) {
    && |s.words| >= 1 && s.read <= s.write <= s.read + |s.words|
    && Laid(s.words, s.frames, s.read, s.write)
    && s.sent == s.received + Messages(s.frames)
    && ProducerOk(s) && ConsumerOk(s)
  }

  // ---------- frames ----------

  lemma StoreElsewhere(words: seq<Word>, q: nat, w: Word, p: nat)
    requires |words| > 0 && p != q && p < q + |words| && q < p + |words|
    ensures At(words[Slot(q, |words|) := w], p) == At(words, p)
  {
    hide Slot;
    if p < q {
      SlotDistinct(p, q, |words|);
    } else {
      SlotDistinct(q, p, |words|);
    }
  }

  /** The two buffers agree between two positions. */
  predicate Agree(words: seq<Word>, words': seq<Word>, p: nat, q: nat) {
    |words'| == |words| > 0 && forall x :: p <= x < q ==> At(words', x) == At(words, x)
  }

  lemma FrameKept(words: seq<Word>, words': seq<Word>, f: Frame, p: nat, q: nat)
    requires FrameAt(words, f, p) && Agree(words, words', p, q) && p + SizeOf(f) <= q
    ensures FrameAt(words', f, p)
  {
    hide Slot;
    hide At;
  }

  lemma {:induction false} LaidUpTo(words: seq<Word>, frames: seq<Frame>, p: nat, q: nat)
    requires Laid(words, frames, p, q)
    ensures p <= q && (frames != [] ==> p + SizeOf(frames[0]) <= q && p < q)
    decreases |frames|
  {
    hide FrameAt;
    if frames != [] {
      LaidUpTo(words, frames[1..], p + SizeOf(frames[0]), q);
      assert SizeOf(frames[0]) > 0 by { FramePositive(words, frames[0], p); }
    }
  }

  lemma FramePositive(words: seq<Word>, f: Frame, p: nat)
    requires FrameAt(words, f, p)
    ensures SizeOf(f) > 0
  {
  }

  lemma {:induction false} LaidKept(words: seq<Word>, words': seq<Word>, frames: seq<Frame>, p: nat, q: nat)
    requires Laid(words, frames, p, q) && Agree(words, words', p, q)
    ensures Laid(words', frames, p, q)
    decreases |frames|
  {
    hide FrameAt;
    hide At;
    if frames != [] {
      LaidUpTo(words, frames, p, q);
      FrameKept(words, words', frames[0], p, q);
      LaidKept(words, words', frames[1..], p + SizeOf(frames[0]), q);
    }
  }

  lemma {:induction false} LaidJoin(words: seq<Word>, first: seq<Frame>, p: nat, q: nat, second: seq<Frame>, r: nat)
    requires Laid(words, first, p, q) && Laid(words, second, q, r)
    ensures Laid(words, first + second, p, r)
    decreases |first|
  {
    hide FrameAt;
    if first == [] {
      assert first + second == second;
    } else {
      assert (first + second)[1..] == first[1..] + second;
      LaidJoin(words, first[1..], p + SizeOf(first[0]), q, second, r);
    }
  }

  lemma {:induction false} MessagesJoin(first: seq<Frame>, second: seq<Frame>)
    ensures Messages(first + second) == Messages(first) + Messages(second)
    decreases |first|
  {
    if first == [] {
      assert first + second == second;
    } else {
      assert (first + second)[1..] == first[1..] + second;
      MessagesJoin(first[1..], second);
      var one := if first[0].Carry? then [first[0].message] else [];
      assert Messages(first + second) == one + (Messages(first[1..]) + Messages(second));
      assert Messages(first) == one + Messages(first[1..]);
    }
  }

  // ---------- producer steps ----------

  /** The producer stores a word outside the frames in flight. */
  lemma StoreInv(s: State, q: nat, w: Word, producer: Producer)
    requires Inv(s) && s.write <= q < s.read + |s.words|
    requires ProducerOk(s.(words := s.words[Slot(q, |s.words|) := w], producer := producer))
    ensures Inv(s.(words := s.words[Slot(q, |s.words|) := w], producer := producer))
  {
    hide Slot;
    hide At;
    hide Laid;
    hide ProducerOk;
    var words' := s.words[Slot(q, |s.words|) := w];
    forall x | s.read <= x < s.write
      ensures At(words', x) == At(s.words, x)
    {
      StoreElsewhere(s.words, q, w, x);
    }
    LaidKept(s.words, words', s.frames, s.read, s.write);
    if s.consumer.Loaded? {
      var k: nat :| Boundary(s, s.consumer.seen, k);
      LaidUpTo(s.words, s.frames[..k], s.read, s.consumer.seen);
      LaidUpTo(s.words, s.frames[k..], s.consumer.seen, s.write);
      LaidKept(s.words, words', s.frames[..k], s.read, s.consumer.seen);
      LaidKept(s.words, words', s.frames[k..], s.consumer.seen, s.write);
      assert Boundary(s.(words := words', producer := producer), s.consumer.seen, k);
    }
  }

  lemma ReserveInv(s: State, length: nat)
    requires Inv(s) && s.producer.Looked?
    ensures Inv(Reserving(s, length))
  {
    hide Slot;
    hide Laid;
    hide Messages;
    var n, size := |s.words|, FrameSize(length);
    var s' := Reserving(s, length);
    if s'.words == s.words {
      SameConsumer(s, s');
    }
    if ReserveAnswer(s, s.producer.seen, length) == Ok && Tail(s) < size {
      var w := Head(8 * (Tail(s) - 1), 0, true);
      var pos := Target(s, size);
      TargetSlot(s);
      StoreInv(s, s.write, w, Reserved(pos, length));
    }
  }

  /** The consumer relies on nothing the producer's own record holds. */
  lemma SameConsumer(s: State, s': State)
    requires ConsumerOk(s) && s'.words == s.words && s'.read == s.read && s'.write == s.write
    requires s'.frames == s.frames && s'.consumer == s.consumer
    ensures ConsumerOk(s')
  {
    hide Laid;
    if s.consumer.Loaded? {
      var k: nat :| Boundary(s, s.consumer.seen, k);
      assert Boundary(s', s'.consumer.seen, k);
    }
  }

  lemma TargetSlot(s: State)
    requires |s.words| > 0
    ensures Slot(s.write + Tail(s), |s.words|) == 0
  {
    SlotEnd(s.write, |s.words|);
  }

  lemma {:induction false} SlotEnd(p: nat, n: nat)
    requires n > 0
    ensures Slot(p + (n - Slot(p, n)), n) == 0
  {
    if p >= n {
      SlotEnd(p - n, n);
    }
  }

  lemma PutInv(s: State, a: Action)
    requires Inv(s) && a.PutWord? && Enabled(s, a)
    ensures Inv(Next(s, a))
  {
    hide Slot;
    hide Laid;
    hide Messages;
    var q := s.producer.pos + 1 + a.i;
    SlotAhead(s.producer.pos, 1 + a.i, |s.words|);
    var s' := Next(s, a);
    if s.write < s.producer.pos {
      StoreElsewhere(s.words, q, Data(a.bits), s.write);
    }
    StoreInv(s, q, Data(a.bits), s.producer);
  }

  lemma SealInv(s: State, a: Action)
    requires Inv(s) && a.Seal? && Enabled(s, a)
    ensures Inv(Next(s, a))
  {
    hide Slot;
    hide Laid;
    hide Messages;
    var pos, w := s.producer.pos, Head(a.length, a.kind, false);
    assert FrameSize(a.length) <= FrameSize(s.producer.length);
    if s.write < pos {
      StoreElsewhere(s.words, pos, w, s.write);
    }
    StoreInv(s, pos, w, Sealed(pos, a.length, a.kind));
  }

  /** The frame the producer has sealed, preceded by the wrap marker if there is one. */
  function NewFrames(s: State): seq<Frame>
    requires Enabled(s, Publish)
  {
    var p := s.producer;
    var start := Slot(p.pos, |s.words|) + 1;
    var m := Message(p.kind, p.length, s.words[start..start + BodySize(p.length)]);
    (if p.pos > s.write then [Skip(p.pos - s.write)] else []) + [Carry(m)]
  }

  lemma NewFramesLaid(s: State)
    requires Inv(s) && Enabled(s, Publish)
    ensures Laid(s.words, NewFrames(s), s.write, s.producer.pos + FrameSize(s.producer.length))
  {
    hide Slot;
    hide BodySize;
    var p, n := s.producer, |s.words|;
    var start := Slot(p.pos, n) + 1;
    var m := Message(p.kind, p.length, s.words[start..start + BodySize(p.length)]);
    forall i | 0 <= i < |m.body|
      ensures At(s.words, p.pos + 1 + i) == m.body[i]
    {
      SlotAhead(p.pos, 1 + i, n);
    }
    assert FrameAt(s.words, Carry(m), p.pos);
    assert Laid(s.words, [Carry(m)], p.pos, p.pos + FrameSize(p.length)) by {
      assert [Carry(m)][1..] == [];
      assert Laid(s.words, [], p.pos + FrameSize(p.length), p.pos + FrameSize(p.length));
    }
    if p.pos > s.write {
      assert FrameAt(s.words, Skip(p.pos - s.write), s.write);
      assert ([Skip(p.pos - s.write)] + [Carry(m)])[1..] == [Carry(m)];
    } else {
      assert [] + [Carry(m)] == [Carry(m)];
    }
  }

  lemma PublishInv(s: State)
    requires Inv(s) && Enabled(s, Publish)
    ensures Inv(Next(s, Publish))
  {
    hide Slot;
    hide Laid;
    hide Messages;
    var p := s.producer;
    NewFramesLaid(s);
    var s' := Next(s, Publish);
    assert s'.frames == s.frames + NewFrames(s);
    LaidJoin(s.words, s.frames, s.read, s.write, NewFrames(s), s'.write);
    MessagesJoin(s.frames, NewFrames(s));
    NewMessages(s);
    assert s'.sent == s'.received + Messages(s'.frames);
    assert s.frames != [] ==> s'.frames[0] == s.frames[0];
    if s.consumer.Loaded? {
      var seen := s.consumer.seen;
      var k: nat :| Boundary(s, seen, k);
      LaidJoin(s.words, s.frames[k..], seen, s.write, NewFrames(s), s'.write);
      assert s'.frames[..k] == s.frames[..k] && s'.frames[k..] == s.frames[k..] + NewFrames(s);
      assert Boundary(s', seen, k);
    }
  }

  lemma NewMessages(s: State)
    requires Enabled(s, Publish)
    ensures s.sent + Messages(NewFrames(s)) == Next(s, Publish).sent
  {
    hide Slot;
    var f := NewFrames(s);
    var m := f[|f| - 1].message;
    assert Messages([Carry(m)]) == [m] by { assert [Carry(m)][1..] == []; }
    if s.producer.pos > s.write {
      assert f == [f[0]] + [Carry(m)] && f[1..] == [Carry(m)];
      assert Messages(f) == [] + Messages(f[1..]);
    } else {
      assert f == [Carry(m)];
    }
  }

  // ---------- consumer steps ----------

  lemma LoadWriteInv(s: State)
    requires Inv(s) && Enabled(s, LoadWrite)
    ensures Inv(Next(s, LoadWrite))
  {
    hide Slot;
    hide At;
    hide Messages;
    var s', k := Next(s, LoadWrite), |s.frames|;
    LaidUpTo(s.words, s.frames, s.read, s.write);
    assert s'.frames[..k] == s'.frames && s'.frames[k..] == [];
    assert Boundary(s', s.write, k);
  }

  lemma LaidFirst(words: seq<Word>, frames: seq<Frame>, p: nat, q: nat)
    requires Laid(words, frames, p, q)
    ensures if frames == [] then p == q else FrameAt(words, frames[0], p) && p + SizeOf(frames[0]) <= q
  {
    hide FrameAt;
    hide SizeOf;
    LaidUpTo(words, frames, p, q);
  }

  /** What is under the cursor is what was published; the consumer never finds anything else. */
  lemma PeekIntact(s: State)
    requires Inv(s) && Enabled(s, Peek)
    ensures PeekAnswer(s) != Corrupt
    ensures s.consumer.again ==> PeekAnswer(s) == Ok
    ensures PeekAnswer(s) == Ok ==> s.frames != [] && FrameAt(s.words, s.frames[0], s.read)
  {
    hide Slot;
    hide Messages;
    hide Laid;
    hide BodySize;
    var seen := s.consumer.seen;
    var k: nat :| Boundary(s, seen, k);
    LaidFirst(s.words, s.frames[..k], s.read, seen);
    if k > 0 {
      assert s.frames[..k][0] == s.frames[0];
    }
  }

  lemma PeekInv(s: State)
    requires Inv(s) && Enabled(s, Peek)
    ensures Inv(Next(s, Peek))
  {
    hide Slot;
    hide Laid;
    hide BodySize;
    hide Messages;
    PeekIntact(s);
    if PeekAnswer(s) == Ok {
      LaidUpTo(s.words, s.frames, s.read, s.write);
      FirstFrame(s);
    }
  }

  lemma FirstFrame(s: State)
    requires s.frames != [] && Laid(s.words, s.frames, s.read, s.write)
    ensures Laid(s.words, s.frames[1..], s.read + SizeOf(s.frames[0]), s.write)
    ensures Messages(s.frames) == (if s.frames[0].Carry? then [s.frames[0].message] else []) + Messages(s.frames[1..])
    ensures s.frames[0].Skip? ==> |s.frames| > 1 && s.frames[1].Carry?
  {
  }

  lemma GetInv(s: State)
    requires Inv(s) && Enabled(s, GetWord)
    ensures Inv(Next(s, GetWord))
  {
    hide Slot;
    hide Messages;
    var k := |s.consumer.got|;
    assert FrameAt(s.words, s.frames[0], s.read);
    var m := s.frames[0].message;
    SlotAhead(s.read, 1 + k, |s.words|);
    assert At(s.words, s.read + 1 + k) == m.body[k];
    assert m.body[..k + 1] == m.body[..k] + [m.body[k]];
  }

  lemma ConsumeInv(s: State)
    requires Inv(s) && Enabled(s, Consume)
    ensures Inv(Next(s, Consume))
  {
    hide Slot;
    hide At;
    LaidUpTo(s.words, s.frames, s.read, s.write);
    FirstFrame(s);
    assert FrameAt(s.words, s.frames[0], s.read);
    var m := s.frames[0].message;
    assert s.consumer.got == m.body;
    assert s.received + ([m] + Messages(s.frames[1..])) == (s.received + [m]) + Messages(s.frames[1..]);
    LaidUpTo(s.words, s.frames[1..], s.read + SizeOf(s.frames[0]), s.write);
  }

  lemma StepInv(s: State, a: Action)
    requires Inv(s) && Enabled(s, a)
    ensures Inv(Next(s, a))
  {
    hide Slot;
    hide Laid;
    hide Messages;
    match a
    case LoadRead => SameConsumer(s, Next(s, a));
    case Reserve(length) => ReserveInv(s, length);
    case PutWord(_, _) => PutInv(s, a);
    case Seal(_, _) => SealInv(s, a);
    case Publish => PublishInv(s);
    case Cancel => SameConsumer(s, Next(s, a));
    case LoadWrite => LoadWriteInv(s);
    case Peek => PeekInv(s);
    case GetWord => GetInv(s);
    case Consume => ConsumeInv(s);
  }

  // ---------- runs ----------

  ghost predicate IsRun(run: seq<State>, actions: seq<Action>) {
    && |run| == |actions| + 1 && Init(run[0])
    && forall i :: 0 <= i < |actions| ==> Enabled(run[i], actions[i]) && run[i + 1] == Next(run[i], actions[i])
  }

  lemma {:induction false} RunInv(run: seq<State>, actions: seq<Action>, i: nat)
    requires IsRun(run, actions) && i < |run|
    ensures Inv(run[i])
  {
    hide Next;
    hide Enabled;
    if i > 0 {
      RunInv(run, actions, i - 1);
      hide Inv;
      assert run[i - 1 + 1] == Next(run[i - 1], actions[i - 1]);
      StepInv(run[i - 1], actions[i - 1]);
    }
  }

  /** In every state of every run, the messages read are a prefix of the messages published, word for word. */
  lemma ReceivedIsPrefix(run: seq<State>, actions: seq<Action>, i: nat)
    requires IsRun(run, actions) && i < |run|
    ensures run[i].received <= run[i].sent
    ensures run[i].read == run[i].write ==> run[i].received == run[i].sent
  {
    RunInv(run, actions, i);
    LaidUpTo(run[i].words, run[i].frames, run[i].read, run[i].write);
  }

  /** No step changes a word between the read cursor and the write cursor. */
  lemma UnreadUntouched(run: seq<State>, actions: seq<Action>, i: nat, p: nat)
    requires IsRun(run, actions) && i < |actions| && run[i].read <= p < run[i].write && |run[i].words| > 0
    ensures |run[i + 1].words| == |run[i].words| && At(run[i + 1].words, p) == At(run[i].words, p)
  {
    hide Slot;
    hide Laid;
    hide Messages;
    RunInv(run, actions, i);
    var s, a := run[i], actions[i];
    assert Enabled(s, a) && run[i + 1] == Next(s, a);
    match a
    case Reserve(length) =>
      if ReserveAnswer(s, s.producer.seen, length) == Ok && Tail(s) < FrameSize(length) {
        StoreElsewhere(s.words, s.write, Head(8 * (Tail(s) - 1), 0, true), p);
      }
    case PutWord(k, bits) =>
      SlotAhead(s.producer.pos, 1 + k, |s.words|);
      StoreElsewhere(s.words, s.producer.pos + 1 + k, Data(bits), p);
    case Seal(kind, length) =>
      StoreElsewhere(s.words, s.producer.pos, Head(length, kind, false), p);
    case _ =>
  }

  /**
   The consumer never meets a frame that does not add up, after a wrap marker there is always a message, and "empty" is
   answered only if all that was published when it looked has been read.
   */
  lemma NeverCorrupt(run: seq<State>, actions: seq<Action>, i: nat)
    requires IsRun(run, actions) && i < |run| && Enabled(run[i], Peek)
    ensures PeekAnswer(run[i]) != Corrupt
    ensures run[i].consumer.again ==> PeekAnswer(run[i]) == Ok
    ensures PeekAnswer(run[i]) == Nothing <==> run[i].read == run[i].consumer.seen
  {
    RunInv(run, actions, i);
    PeekIntact(run[i]);
  }

  /**
   With nothing in flight, a frame is refused as "full" exactly when it fits neither before the end nor before the
   cursor.
   */
  lemma EmptyRefuses(s: State, length: nat)
    requires Inv(s) && s.read == s.write && FrameSize(length) <= |s.words| - 1
    ensures ReserveAnswer(s, s.read, length) == Full <==>
      Slot(s.write, |s.words|) < FrameSize(length) && |s.words| - Slot(s.write, |s.words|) < FrameSize(length)
  {
    hide Laid;
    hide Messages;
  }

  /** A frame of about half the buffer or less is never refused by an empty ring. */
  lemma HalfAlwaysFits(s: State, length: nat)
    requires Inv(s) && s.read == s.write && FrameSize(length) < |s.words| && 2 * FrameSize(length) <= |s.words| + 1
    ensures ReserveAnswer(s, s.read, length) == Ok
  {
    hide Laid;
    hide Messages;
    EmptyRefuses(s, length);
  }

  /** One more step of a run. */
  lemma Extend(run: seq<State>, actions: seq<Action>, a: Action) returns (run': seq<State>, actions': seq<Action>)
    requires IsRun(run, actions) && Enabled(run[|run| - 1], a)
    ensures IsRun(run', actions') && |run'| > 0 && run'[0] == run[0] && run'[|run'| - 1] == Next(run[|run| - 1], a)
    ensures actions' == actions + [a] && run <= run'
  {
    hide Enabled;
    hide Next;
    run', actions' := run + [Next(run[|run| - 1], a)], actions + [a];
  }

  /** The consumer reads the words of a frame one by one. */
  lemma {:induction false} ReadOn(run: seq<State>, actions: seq<Action>)
      returns (run': seq<State>, actions': seq<Action>)
    requires IsRun(run, actions)
    requires var s := run[|run| - 1];
      s.consumer.Reading? && |s.consumer.got| <= BodySize(s.consumer.length)
    ensures IsRun(run', actions') && |run'| > 0 && run'[0] == run[0]
    ensures run <= run' && actions <= actions' && forall i :: |actions| <= i < |actions'| ==> actions'[i] == GetWord
    ensures var s, s' := run[|run| - 1], run'[|run'| - 1];
      && s'.consumer.Reading? && s' == s.(consumer := s.consumer.(got := s'.consumer.got))
      && |s'.consumer.got| == BodySize(s.consumer.length)
    decreases BodySize(run[|run| - 1].consumer.length) - |run[|run| - 1].consumer.got|
  {
    hide Inv;
    hide BodySize;
    var s := run[|run| - 1];
    if |s.consumer.got| == BodySize(s.consumer.length) {
      run', actions' := run, actions;
    } else {
      assert Enabled(s, GetWord) by {
        RunInv(run, actions, |run| - 1);
        InBounds(s);
      }
      var longer, more := Extend(run, actions, GetWord);
      run', actions' := ReadOn(longer, more);
    }
  }

  /** A first message goes in whole: the producer reserves, seals and publishes it. */
  lemma SendFirst(s: State, length: nat) returns (run: seq<State>, actions: seq<Action>)
    requires Init(s) && FrameSize(length) < |s.words|
    ensures IsRun(run, actions) && |run| > 0 && run[0] == s
    ensures var t := run[|run| - 1];
      && |t.words| == |s.words| && t.write == FrameSize(length) && t.read == 0
      && t.producer == Idle && t.consumer == Waiting
      && |t.frames| == 1 && t.words[0] == Head(length, 0, false)
  {
    hide FrameSize;
    hide IsRun;
    assert Slot(0, |s.words|) == 0;
    run, actions := [s], [];
    assert IsRun(run, actions) by { SingleRun(s); }
    run, actions := Extend(run, actions, LoadRead);
    run, actions := Extend(run, actions, Reserve(length));
    run, actions := Extend(run, actions, Seal(0, length));
    run, actions := Extend(run, actions, Publish);
  }

  lemma SingleRun(s: State)
    requires Init(s)
    ensures IsRun([s], [])
  {
  }

  /** The consumer takes the first message, and the producer looks again. */
  lemma TakeFirst(run: seq<State>, actions: seq<Action>) returns (run': seq<State>, actions': seq<Action>)
    requires IsRun(run, actions) && |run| > 0
    requires var t := run[|run| - 1];
      && |t.words| > t.write && t.read == 0 && t.producer == Idle && t.consumer == Waiting && |t.frames| == 1
      && t.words[0].Head? && !t.words[0].wrap && t.write == FrameSize(t.words[0].length)
    ensures IsRun(run', actions') && |run'| > 0 && run'[0] == run[0]
    ensures var t, s := run[|run| - 1], run'[|run'| - 1];
      |s.words| == |t.words| && s.read == s.write == t.write && s.producer == Looked(t.write) && s.frames == []
  {
    hide IsRun;
    var t := run[|run| - 1];
    assert Slot(0, |t.words|) == 0;
    run', actions' := Extend(run, actions, LoadWrite);
    run', actions' := Extend(run', actions', Peek);
    run', actions' := ReadOn(run', actions');
    run', actions' := Extend(run', actions', Consume);
    run', actions' := Extend(run', actions', LoadRead);
  }

  /**
   The bound of `HalfAlwaysFits` is exact: from every fresh ring there is a run to an empty ring that refuses a
   larger frame as "full", although the frame is not called invalid. One message is sent and read, and the
   cursors come to rest where the frame fits neither before the end nor at the start.
   */
  lemma LargerCanBeRefused(s: State, length: nat) returns (run: seq<State>, actions: seq<Action>)
    requires Init(s) && |s.words| + 1 < 2 * FrameSize(length) && FrameSize(length) < |s.words|
    ensures IsRun(run, actions) && |run| > 0 && run[0] == s
    ensures var e := run[|run| - 1];
      && e.read == e.write && e.frames == [] && Enabled(e, Reserve(length))
      && ReserveAnswer(e, e.read, length) == Full && Next(e, Reserve(length)) == e.(producer := Idle)
  {
    hide IsRun;
    hide Laid;
    hide Messages;
    var first := 8 * (BodySize(length) - 1);
    assert FrameSize(first) == FrameSize(length) - 1;
    run, actions := SendFirst(s, first);
    run, actions := TakeFirst(run, actions);
    var e := run[|run| - 1];
    RunInv(run, actions, |run| - 1);
    EmptyRefuses(e, length);
  }

  /** The bounds asked for in `Enabled` always hold: no access leaves the buffer. */
  lemma InBounds(s: State)
    requires Inv(s)
    ensures forall i: nat, bits: nat :: s.producer.Reserved? && i < BodySize(s.producer.length) ==>
      Enabled(s, PutWord(i, bits))
    ensures s.producer.Sealed? ==> Enabled(s, Publish)
    ensures s.consumer.Reading? && |s.consumer.got| < BodySize(s.consumer.length) ==> Enabled(s, GetWord)
    ensures s.consumer.Reading? && |s.consumer.got| == BodySize(s.consumer.length) ==> Enabled(s, Consume)
  {
    hide Slot;
    hide Messages;
    hide At;
  }
}
