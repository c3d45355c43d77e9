/**
 The lock-free hash map as a state machine. Any number of threads run insert, put, get, remove and bucket
 initialisation at once. Each step is one read or one compare-and-swap of shared memory, together with
 the comparisons of immutable keys that follow it. The bucket count is kept as its logarithm, `bits`.

 `since`, `seenAbsent`, `seenPresent`, `clock` and the ranks of nodes are not in the program. They record at which
 step a call began, and whether its key was absent or present at some instant of the call.
 */
module LockFreeMap {
  import opened Basics
  import opened SplitOrder
  import opened LockFreeList

  type Tid = nat

  datatype Op = Insert | Put | Get | Remove | InitBucket | Sweep

  datatype Pc =
    | Begin
    | AtNode(pred: Id, curr: Option<Id>)
    | Unlinking(pred: Id, dead: Id)
    | Missed(pred: Id, curr: Option<Id>)
    | Victim(victim: Id)
    | Updating(updated: Id)
    | Sentry(sentinel: Id)
    | Visiting(curr: Option<Id>)

  datatype Call = Call(op: Op, key: Key, head: Id, pc: Pc, since: nat, seenAbsent: bool, seenPresent: bool)

  datatype Outcome = Inserted | AlreadyExists | Updated | Removed | Found | NotFound

  datatype State = State(
    nodes: Nodes,
    slots: map<Key, Id>,
    calls: map<Tid, Call>,
    retired: set<Id>,
    bits: nat,
    clock: nat)

  datatype Action =
    | Start(t: Tid, op: Op, key: Key, bits: bv64)
    | LoadHead(t: Tid)
    | LoadNode(t: Tid)
    | UnlinkCas(t: Tid)
    | Retry(t: Tid)
    | LinkCas(t: Tid, id: Id, rank: real)
    | MarkCas(t: Tid)
    | StoreSlot(t: Tid)
    | Confirm(t: Tid)
    | Visit(t: Tid)
    | Return(t: Tid)
    | Double(t: Tid)

  const ROOT: Id := 0
  const INIT_BITS := 2
  const MAX_BITS := 31

  predicate Init(s: State) {
    && s.nodes == map[ROOT := Node(Sentinel(0), None, false, 0.0)]
    && s.slots == map[Sentinel(0) := ROOT] && s.calls == map[] && s.retired == {}
    && s.bits == INIT_BITS && s.clock == 0
  }

  /** The sentinel a call starts from: the bucket of its key at some table size, or the parent of a new bucket. */
  predicate HeadOf(slots: map<Key, Id>, op: Op, key: Key, bits: bv64) {
    match key
    case Regular(hash, _) => op != InitBucket && bits < 64 && Sentinel(Bucket(hash, bits)) in slots
    case Sentinel(bucket) =>
      op == InitBucket && bits < 63 && IsTopBit(bucket, bits) && Sentinel(Parent(bucket, bits)) in slots
  }

  function Head(slots: map<Key, Id>, op: Op, key: Key, bits: bv64): Id
    requires HeadOf(slots, op, key, bits)
  {
    match key
    case Regular(hash, _) => slots[Sentinel(Bucket(hash, bits))]
    case Sentinel(bucket) => slots[Sentinel(Parent(bucket, bits))]
  }

  predicate Enabled(s: State, a: Action) {
    match a
    case Start(t, op, key, bits) =>
      && t !in s.calls && HeadOf(s.slots, op, key, bits)
      && (if key.Regular? then Position(bits) <= s.bits else Position(bits) < s.bits)
    case LoadHead(t) => t in s.calls && s.calls[t].pc.Begin? && s.calls[t].head in s.nodes
    case LoadNode(t) =>
      t in s.calls && s.calls[t].pc.AtNode? && (s.calls[t].pc.curr.Some? ==> s.calls[t].pc.curr.value in s.nodes)
    case UnlinkCas(t) =>
      && t in s.calls && s.calls[t].pc.Unlinking? && s.calls[t].pc.dead in s.nodes && s.calls[t].pc.pred in s.nodes
      && var pred := s.nodes[s.calls[t].pc.pred]; !pred.marked && pred.next == Some(s.calls[t].pc.dead)
    case Retry(t) =>
      && t in s.calls
      && (s.calls[t].pc.Unlinking? || (s.calls[t].pc.Missed? && s.calls[t].op in {Insert, Put, InitBucket}))
    case LinkCas(t, id, rank) =>
      && t in s.calls && s.calls[t].pc.Missed? && s.calls[t].op in {Insert, Put, InitBucket}
      && s.calls[t].pc.pred in s.nodes
      && var pred := s.nodes[s.calls[t].pc.pred];
      && !pred.marked && pred.next == s.calls[t].pc.curr
      && id !in s.nodes && RankBehind(s.nodes, s.calls[t].pc.pred, rank)
    case MarkCas(t) =>
      && t in s.calls && s.calls[t].pc.Victim? && s.calls[t].pc.victim in s.nodes
      && !s.nodes[s.calls[t].pc.victim].marked
    case StoreSlot(t) => t in s.calls && s.calls[t].pc.Sentry?
    case Confirm(t) => t in s.calls && s.calls[t].pc.Updating? && s.calls[t].pc.updated in s.nodes
    case Visit(t) =>
      && t in s.calls && s.calls[t].pc.Visiting? && s.calls[t].pc.curr.Some? && s.calls[t].pc.curr.value in s.nodes
    case Double(t) => t !in s.calls && s.bits < MAX_BITS
    case Return(t) =>
      && t in s.calls
      && var c := s.calls[t];
      match c.pc
      case Missed(_, _) => c.op in {Remove, Sweep}
      case Victim(node) => node in s.nodes && s.nodes[node].marked
      case Visiting(None) => true
      case Begin => c.op == InitBucket && c.key in s.slots
      case _ => false
  }

  // ---------- effects ----------

  function Watch(nodes: Nodes, c: Call): Call {
    c.(seenAbsent := c.seenAbsent || Absent(nodes, c.key), seenPresent := c.seenPresent || !Absent(nodes, c.key))
  }

  function Observe(nodes: Nodes, calls: map<Tid, Call>): map<Tid, Call> {
    map t | t in calls :: Watch(nodes, calls[t])
  }

  /** What a thread does next: go on, or leave the map. */
  datatype Progress = Continue(call: Call) | Leave

  function Goto(c: Call, pc: Pc): Progress {
    Continue(c.(pc := pc))
  }

  function LoadedNode(nodes: Nodes, c: Call): Progress
    requires c.pc.AtNode? && (c.pc.curr.Some? ==> c.pc.curr.value in nodes)
  {
    match c.pc.curr
    case None => Goto(c, Missed(c.pc.pred, None))
    case Some(id) =>
      var curr := nodes[id];
      if curr.marked then Goto(c, Unlinking(c.pc.pred, id))
      else if So(curr.key) > So(c.key) then Goto(c, Missed(c.pc.pred, Some(id)))
      else if Matches(curr.key, c.key) then
        match c.op {
          case Remove => Goto(c, Victim(id))
          case InitBucket => Goto(c, Sentry(id))
          case Put => Goto(c, Updating(id))
          case _ => Leave
        }
      else Goto(c, AtNode(id, curr.next))
  }

  function Visited(nodes: Nodes, c: Call): Progress
    requires c.pc.Visiting? && c.pc.curr.Some? && c.pc.curr.value in nodes
  {
    var curr := nodes[c.pc.curr.value];
    if (!curr.marked && Matches(curr.key, c.key)) || So(curr.key) > So(c.key) then Leave
    else Goto(c, Visiting(curr.next))
  }

  function Progressed(s: State, a: Action): Progress
    requires Enabled(s, a)
  {
    match a
    case Start(t, op, key, bits) =>
      var head := Head(s.slots, op, key, bits);
      Continue(Call(op, key, head, if op == Get then Visiting(Some(head)) else Begin, s.clock + 1, false, false))
    case LoadHead(t) => Goto(s.calls[t], AtNode(s.calls[t].head, s.nodes[s.calls[t].head].next))
    case LoadNode(t) => LoadedNode(s.nodes, s.calls[t])
    case UnlinkCas(t) => Goto(s.calls[t], AtNode(s.calls[t].pc.pred, s.nodes[s.calls[t].pc.dead].next))
    case Retry(t) => Goto(s.calls[t], Begin)
    case LinkCas(t, id, _) => if s.calls[t].op == InitBucket then Goto(s.calls[t], Sentry(id)) else Leave
    case Visit(t) => Visited(s.nodes, s.calls[t])
    case Confirm(t) => if s.nodes[s.calls[t].pc.updated].marked then Goto(s.calls[t], Begin) else Leave
    case _ => Leave
  }

  function NextNodes(s: State, a: Action): Nodes
    requires Enabled(s, a)
  {
    match a
    case UnlinkCas(t) => Unlink(s.nodes, s.calls[t].pc.pred, s.calls[t].pc.dead)
    case LinkCas(t, id, rank) => Link(s.nodes, s.calls[t].pc.pred, id, s.calls[t].key, rank)
    case MarkCas(t) => Mark(s.nodes, s.calls[t].pc.victim)
    case _ => s.nodes
  }

  function NextCalls(s: State, a: Action): map<Tid, Call>
    requires Enabled(s, a)
  {
    match Progressed(s, a)
    case Continue(call) => s.calls[a.t := call]
    case Leave => s.calls - {a.t}
  }

  function Next(s: State, a: Action): State
    requires Enabled(s, a)
  {
    State(
      NextNodes(s, a),
      if a.StoreSlot? then s.slots[s.calls[a.t].key := s.calls[a.t].pc.sentinel] else s.slots,
      Observe(NextNodes(s, a), NextCalls(s, a)),
      if a.UnlinkCas? then s.retired + {s.calls[a.t].pc.dead} else s.retired,
      if a.Double? then s.bits + 1 else s.bits,
      s.clock + 1)
  }

  /** What the step reports to the caller, if it ends a call that has an answer. */
  function Report(s: State, a: Action): Option<Outcome>
    requires Enabled(s, a)
  {
    match a
    case LoadNode(t) => if Progressed(s, a).Leave? && s.calls[t].op == Insert then Some(AlreadyExists) else None
    case LinkCas(t, _, _) => if s.calls[t].op in {Insert, Put} then Some(Inserted) else None
    case Confirm(_) => if Progressed(s, a).Leave? then Some(Updated) else None
    case MarkCas(_) => Some(Removed)
    case Visit(t) =>
      if Progressed(s, a).Continue? then None
      else if So(s.nodes[s.calls[t].pc.curr.value].key) > So(s.calls[t].key) then Some(NotFound) else Some(Found)
    case Return(t) => if s.calls[t].op in {Get, Remove} then Some(NotFound) else None
    case _ => None
  }

  // ---------- invariant ----------

  predicate Somewhere(nodes: Nodes, x: Option<Id>) {
    x.Some? ==> x.value in nodes
  }

  predicate PcOk(nodes: Nodes, c: Call) {
    match c.pc
    case Begin => true
    case AtNode(pred, curr) =>
      && Passed(nodes, pred, c.key) && Somewhere(nodes, curr)
      && (curr.Some? ==> Clean(nodes, curr.value, c.key))
      && (Beyond(nodes, curr, c.key) ==> c.seenAbsent)
    case Unlinking(pred, dead) => Passed(nodes, pred, c.key) && dead in nodes && nodes[dead].marked
    case Missed(pred, curr) =>
      Passed(nodes, pred, c.key) && Somewhere(nodes, curr) && Beyond(nodes, curr, c.key) && c.seenAbsent
    case Victim(node) =>
      c.op == Remove && node in nodes && nodes[node].key == c.key && (nodes[node].marked ==> c.seenAbsent)
    case Updating(node) => c.op == Put && node in nodes && nodes[node].key == c.key
    case Sentry(node) => c.op == InitBucket && node in nodes && nodes[node].key == c.key
    case Visiting(curr) =>
      c.op == Get && Somewhere(nodes, curr) && (c.seenAbsent || NoneBefore(nodes, curr, c.key))
  }

  predicate CallOk(nodes: Nodes, c: Call) {
    && ValidKey(c.key) && (c.op == InitBucket <==> c.key.Sentinel?) && (c.op == Get <==> c.pc.Visiting?)
    && c.head in nodes && nodes[c.head].key.Sentinel? && So(nodes[c.head].key) < So(c.key)
    && PcOk(nodes, c)
    && (Absent(nodes, c.key) ==> c.seenAbsent) && (!Absent(nodes, c.key) ==> c.seenPresent)
  }

  predicate SlotsOk(nodes: Nodes, slots: map<Key, Id>) {
    forall k :: k in slots ==> k.Sentinel? && slots[k] in nodes && nodes[slots[k]].key == k
  }

  predicate RootFirst(nodes: Nodes) {
    ROOT in nodes && nodes[ROOT].key == Sentinel(0) && forall x :: x in nodes && x != ROOT ==> Before(nodes, ROOT, x)
  }

  ghost predicate RetiredOk(nodes: Nodes, retired: set<Id>)
    requires Chain(nodes) && ROOT in nodes
  {
    forall x :: x in retired ==> x in nodes && nodes[x].marked && x !in Walk(nodes, ROOT)
  }

  ghost predicate Inv(s: State) {
    && Chain(s.nodes) && RootFirst(s.nodes) && SlotsOk(s.nodes, s.slots)
    && (forall t :: t in s.calls ==> CallOk(s.nodes, s.calls[t]) && s.calls[t].since <= s.clock)
    && RetiredOk(s.nodes, s.retired)
  }

  lemma InitHolds(s: State)
    requires Init(s)
    ensures Inv(s)
  {
    hide So;
    hide Walk;
    var nodes := s.nodes;
    assert nodes.Keys == {ROOT};
    assert LinkOk(nodes, ROOT, None);
  }

  // ---------- calls that do not move ----------

  lemma PcCarries(nodes: Nodes, after: Nodes, c: Call)
    requires PcOk(nodes, c) && Evolves(nodes, after) && (Absent(nodes, c.key) ==> c.seenAbsent)
    ensures PcOk(after, Watch(after, c))
  {
    hide So;
    hide Absent;
    hide NoneBefore;
    hide Clean;
    match c.pc
    case Visiting(Some(x)) =>
      assert NoneBefore(nodes, Some(x), c.key) ==> NoneBefore(after, Some(x), c.key) || Absent(nodes, c.key);
    case Visiting(None) =>
      NoneAnywhere(nodes, c.key);
    case _ =>
  }

  lemma NoneAnywhere(nodes: Nodes, key: Key)
    ensures NoneBefore(nodes, None, key) <==> Absent(nodes, key)
  {
  }

  lemma CallCarries(nodes: Nodes, after: Nodes, c: Call)
    requires CallOk(nodes, c) && Evolves(nodes, after)
    ensures CallOk(after, Watch(after, c))
  {
    hide So;
    hide Absent;
    hide PcOk;
    hide KeepsClean;
    hide KeepsNone;
    hide MarksRemove;
    hide ValidKey;
    PcCarries(nodes, after, c);
  }

  lemma SameEvolves(nodes: Nodes)
    ensures Evolves(nodes, nodes)
  {
    hide So;
  }

  // ---------- the call that moves ----------

  ghost predicate MoveOk(s: State, a: Action)
    requires Enabled(s, a)
  {
    Progressed(s, a).Continue? ==>
      CallOk(NextNodes(s, a), Watch(NextNodes(s, a), Progressed(s, a).call)) &&
      Progressed(s, a).call.since <= s.clock + 1
  }

  lemma PassedHead(nodes: Nodes, head: Id, key: Key)
    requires Chain(nodes) && head in nodes && nodes[head].key.Sentinel? && So(nodes[head].key) < So(key)
    ensures !nodes[head].marked && Passed(nodes, head, key) && NoneBefore(nodes, Some(head), key)
  {
    hide So;
  }

  lemma SentinelValid(bucket: bv64, k: bv64)
    requires k < 63 && IsTopBit(bucket, k)
    ensures ValidKey(Sentinel(bucket))
  {
  }

  lemma HeadPrecedes(nodes: Nodes, slots: map<Key, Id>, op: Op, key: Key, bits: bv64)
    requires SlotsOk(nodes, slots) && HeadOf(slots, op, key, bits)
    ensures var head := Head(slots, op, key, bits);
      head in nodes && nodes[head].key.Sentinel? && So(nodes[head].key) < So(key) && ValidKey(key)
  {
    hide Bucket;
    hide Parent;
    hide IsTopBit;
    hide Value;
    hide RegularKey;
    hide SentinelKey;
    match key
    case Regular(hash, _) => SentinelPrecedes(hash, bits);
    case Sentinel(bucket) =>
      SentinelValid(bucket, bits);
      ParentPrecedes(bucket, bits);
  }

  lemma StartOk(s: State, a: Action)
    requires Inv(s) && a.Start? && Enabled(s, a)
    ensures MoveOk(s, a)
  {
    hide So;
    hide Head;
    hide Chain;
    hide Absent;
    hide RetiredOk;
    HeadPrecedes(s.nodes, s.slots, a.op, a.key, a.bits);
    PassedHead(s.nodes, Head(s.slots, a.op, a.key, a.bits), a.key);
    assert a.op == InitBucket <==> a.key.Sentinel?;
  }

  /** Reading the link of an unmarked node the search got past. */
  lemma ReadLink(nodes: Nodes, p: Id, key: Key)
    requires Chain(nodes) && Passed(nodes, p, key) && !nodes[p].marked
    ensures Somewhere(nodes, nodes[p].next)
    ensures nodes[p].next.Some? ==> Clean(nodes, nodes[p].next.value, key)
    ensures Beyond(nodes, nodes[p].next, key) ==> Absent(nodes, key)
  {
    hide So;
    hide Chain;
    hide NoneBefore;
    hide Absent;
    NoneBeforeNext(nodes, p, key);
    if Beyond(nodes, nodes[p].next, key) {
      AbsentIfBeyond(nodes, nodes[p].next, key);
    }
  }

  lemma LoadHeadOk(s: State, a: Action)
    requires Inv(s) && a.LoadHead? && Enabled(s, a)
    ensures MoveOk(s, a)
  {
    hide So;
    hide Chain;
    hide Absent;
    hide RetiredOk;
    hide Clean;
    hide NoneBefore;
    hide Beyond;
    hide Passed;
    var c := s.calls[a.t];
    assert CallOk(s.nodes, c);
    PassedHead(s.nodes, c.head, c.key);
    ReadLink(s.nodes, c.head, c.key);
  }

  /** What a search may rely on after it has looked at a node. */
  lemma LoadedOk(nodes: Nodes, c: Call)
    requires Chain(nodes) && CallOk(nodes, c) && c.pc.AtNode?
    ensures LoadedNode(nodes, c).Continue? ==>
      var c' := LoadedNode(nodes, c).call; c' == c.(pc := c'.pc) && PcOk(nodes, c') && !c'.pc.Visiting?
  {
    hide So;
    hide Chain;
    hide Absent;
    hide Clean;
    hide NoneBefore;
    hide Matches;
    if c.pc.curr.Some? {
      var curr := nodes[c.pc.curr.value];
      ChainKeys(nodes, c.pc.curr.value);
      MatchesIsEquality(curr.key, c.key);
      if !curr.marked && So(curr.key) <= So(c.key) && curr.key != c.key {
        ReadLink(nodes, c.pc.curr.value, c.key);
      }
    }
  }

  lemma LoadNodeOk(s: State, a: Action)
    requires Inv(s) && a.LoadNode? && Enabled(s, a)
    ensures MoveOk(s, a)
  {
    hide So;
    hide Chain;
    hide Absent;
    hide RetiredOk;
    hide PcOk;
    hide LoadedNode;
    var c := s.calls[a.t];
    assert CallOk(s.nodes, c);
    LoadedOk(s.nodes, c);
    if LoadedNode(s.nodes, c).Continue? {
      PcFlags(s.nodes, LoadedNode(s.nodes, c).call);
    }
  }

  /** The flags say no more than the position of a call needs. */
  lemma PcFlags(nodes: Nodes, c: Call)
    requires PcOk(nodes, c)
    ensures PcOk(nodes, Watch(nodes, c))
  {
    hide So;
    hide Absent;
    hide Clean;
    hide NoneBefore;
  }

  lemma ChainKeys(nodes: Nodes, x: Id)
    requires Chain(nodes) && x in nodes
    ensures ValidKey(nodes[x].key) && (nodes[x].key.Sentinel? ==> !nodes[x].marked)
    ensures Somewhere(nodes, nodes[x].next)
  {
    hide So;
    assert LinkOk(nodes, x, nodes[x].next);
  }

  lemma VisitOk(s: State, a: Action)
    requires Inv(s) && a.Visit? && Enabled(s, a)
    ensures MoveOk(s, a)
  {
    hide So;
    hide Chain;
    hide Absent;
    hide RetiredOk;
    hide NoneBefore;
    hide Matches;
    var c := s.calls[a.t];
    var x := c.pc.curr.value;
    assert CallOk(s.nodes, c);
    ChainKeys(s.nodes, x);
    MatchesIsEquality(s.nodes[x].key, c.key);
    if !c.seenAbsent && (s.nodes[x].marked || s.nodes[x].key != c.key) {
      NoneBeforeVisited(s.nodes, x, c.key);
    }
  }

  lemma UnlinkOk(s: State, a: Action)
    requires Inv(s) && a.UnlinkCas? && Enabled(s, a)
    ensures CanUnlink(s.nodes, s.calls[a.t].pc.pred, s.calls[a.t].pc.dead)
    ensures Chain(NextNodes(s, a)) && Evolves(s.nodes, NextNodes(s, a)) && MoveOk(s, a)
  {
    hide So;
    hide Chain;
    hide Absent;
    hide RetiredOk;
    hide Clean;
    hide NoneBefore;
    hide Beyond;
    hide Unlink;
    hide Evolves;
    var c := s.calls[a.t];
    assert CallOk(s.nodes, c);
    var after := NextNodes(s, a);
    UnlinkKeepsChain(s.nodes, c.pc.pred, c.pc.dead);
    UnlinkEvolves(s.nodes, c.pc.pred, c.pc.dead);
    CallCarries(s.nodes, after, c);
    UnlinkPred(s.nodes, c.pc.pred, c.pc.dead);
    ReadLink(after, c.pc.pred, c.key);
  }

  lemma UnlinkPred(nodes: Nodes, p: Id, c: Id)
    requires p in nodes && c in nodes
    ensures Unlink(nodes, p, c).Keys == nodes.Keys
    ensures Unlink(nodes, p, c)[p].next == nodes[c].next && Unlink(nodes, p, c)[p].marked == nodes[p].marked
  {
  }

  lemma LinkOkFor(s: State, a: Action)
    requires Inv(s) && a.LinkCas? && Enabled(s, a)
    ensures CanLink(s.nodes, s.calls[a.t].pc.pred, a.id, s.calls[a.t].key, a.rank)
    ensures Absent(s.nodes, s.calls[a.t].key)
    ensures Chain(NextNodes(s, a)) && Evolves(s.nodes, NextNodes(s, a)) && MoveOk(s, a)
  {
    hide So;
    hide Chain;
    hide Absent;
    hide RetiredOk;
    hide Clean;
    hide RankBehind;
    hide Link;
    hide Evolves;
    var c := s.calls[a.t];
    assert CallOk(s.nodes, c);
    var after := NextNodes(s, a);
    LinkAbsent(s.nodes, c.pc.pred, a.id, c.key, a.rank);
    LinkKeepsChain(s.nodes, c.pc.pred, a.id, c.key, a.rank);
    LinkEvolves(s.nodes, c.pc.pred, a.id, c.key, a.rank);
    CallCarries(s.nodes, after, c);
    LinkNew(s.nodes, c.pc.pred, a.id, c.key, a.rank);
  }

  lemma LinkNew(nodes: Nodes, p: Id, id: Id, key: Key, rank: real)
    requires p in nodes && id !in nodes
    ensures var after := Link(nodes, p, id, key, rank);
      id in after && after[id].key == key && !after[id].marked && after[id].rank == rank
    ensures Link(nodes, p, id, key, rank).Keys == nodes.Keys + {id}
    ensures !Absent(Link(nodes, p, id, key, rank), key)
  {
    var after := Link(nodes, p, id, key, rank);
    assert after[id].key == key && !after[id].marked;
  }

  lemma VictimOk(s: State, t: Tid, v: Id)
    requires t in s.calls && s.calls[t].pc == Victim(v) && v in s.nodes && !s.nodes[v].marked
    requires Inv(s)
    ensures CanMark(s.nodes, v) && s.nodes[v].key == s.calls[t].key
  {
    hide So;
    hide Chain;
    hide Absent;
    hide RetiredOk;
    assert CallOk(s.nodes, s.calls[t]);
    ChainKeys(s.nodes, v);
  }

  lemma MarkOkFor(s: State, t: Tid)
    requires Enabled(s, MarkCas(t)) && Inv(s)
    ensures Chain(NextNodes(s, MarkCas(t))) && Evolves(s.nodes, NextNodes(s, MarkCas(t)))
  {
    hide Chain;
    hide RetiredOk;
    hide CallOk;
    hide Mark;
    hide Evolves;
    VictimOk(s, t, s.calls[t].pc.victim);
    MarkKeepsChain(s.nodes, s.calls[t].pc.victim);
    MarkEvolves(s.nodes, s.calls[t].pc.victim);
  }

  /** What every step guarantees about the list. */
  lemma NodesStep(s: State, a: Action)
    requires Inv(s) && Enabled(s, a)
    ensures Chain(NextNodes(s, a)) && Evolves(s.nodes, NextNodes(s, a)) && MoveOk(s, a)
  {
    hide So;
    hide Chain;
    hide Evolves;
    hide CallOk;
    hide RetiredOk;
    SameEvolves(s.nodes);
    match a
    case Start(_, _, _, _) => StartOk(s, a);
    case LoadHead(_) => LoadHeadOk(s, a);
    case LoadNode(_) => LoadNodeOk(s, a);
    case UnlinkCas(_) => UnlinkOk(s, a);
    case Retry(t) => RetryOk(s, a);
    case Confirm(_) => RetryOk(s, a);
    case LinkCas(_, _, _) => LinkOkFor(s, a);
    case MarkCas(t) => MarkOkFor(s, t);
    case Visit(_) => VisitOk(s, a);
    case _ =>
  }

  lemma RetryOk(s: State, a: Action)
    requires Inv(s) && (a.Retry? || a.Confirm?) && Enabled(s, a)
    ensures MoveOk(s, a)
  {
    hide So;
    hide Chain;
    hide Absent;
    hide RetiredOk;
    assert CallOk(s.nodes, s.calls[a.t]);
  }

  lemma RootStays(s: State, a: Action)
    requires Inv(s) && Enabled(s, a)
    ensures RootFirst(NextNodes(s, a))
  {
    hide So;
    hide Chain;
    hide CallOk;
    hide RetiredOk;
    match a
    case LinkCas(_, _, _) =>
      var p := s.calls[a.t].pc.pred;
      LinkNew(s.nodes, p, a.id, s.calls[a.t].key, a.rank);
      assert p == ROOT || Before(s.nodes, ROOT, p);
    case _ =>
  }

  lemma SlotsStay(s: State, a: Action)
    requires Inv(s) && Enabled(s, a) && Grows(s.nodes, NextNodes(s, a))
    ensures SlotsOk(NextNodes(s, a), Next(s, a).slots)
  {
    hide So;
    hide Chain;
    hide RetiredOk;
    if a.StoreSlot? {
      assert CallOk(s.nodes, s.calls[a.t]);
    }
  }

  lemma CallsStay(s: State, a: Action)
    requires Inv(s) && Enabled(s, a) && Evolves(s.nodes, NextNodes(s, a)) && MoveOk(s, a)
    ensures forall t :: t in Next(s, a).calls ==>
      CallOk(NextNodes(s, a), Next(s, a).calls[t]) && Next(s, a).calls[t].since <= s.clock + 1
  {
    hide So;
    hide Chain;
    hide RetiredOk;
    hide Evolves;
    hide CallOk;
    hide Absent;
    hide NextNodes;
    forall t | t in Next(s, a).calls
      ensures CallOk(NextNodes(s, a), Next(s, a).calls[t]) && Next(s, a).calls[t].since <= s.clock + 1
    {
      if t != a.t {
        CallCarries(s.nodes, NextNodes(s, a), s.calls[t]);
      }
    }
  }

  /** A retired node is never met again, and a node is retired only once. */
  lemma RetiredStay(s: State, a: Action)
    requires Inv(s) && Enabled(s, a) && Chain(NextNodes(s, a)) && ROOT in NextNodes(s, a)
    requires Grows(s.nodes, NextNodes(s, a))
    ensures RetiredOk(NextNodes(s, a), Next(s, a).retired)
    ensures a.UnlinkCas? ==> s.calls[a.t].pc.dead !in s.retired
  {
    hide So;
    hide Chain;
    hide Walk;
    hide CallOk;
    var after := NextNodes(s, a);
    if a.UnlinkCas? {
      var p, dead := s.calls[a.t].pc.pred, s.calls[a.t].pc.dead;
      UnlinkOk(s, a);
      UnlinkedUnreached(s.nodes, p, dead, ROOT);
      DeadWasReached(s.nodes, p, dead);
    }
    forall x | x in s.retired
      ensures x !in Walk(after, ROOT)
    {
      if x in Walk(after, ROOT) {
        StillReached(s, a, x);
      }
    }
  }

  lemma DeadWasReached(nodes: Nodes, p: Id, dead: Id)
    requires Chain(nodes) && RootFirst(nodes) && CanUnlink(nodes, p, dead)
    ensures dead in Walk(nodes, ROOT)
  {
    hide So;
    hide Walk;
    hide Chain;
    LiveReached(nodes, ROOT, p);
    NextReached(nodes, ROOT, p);
  }

  lemma {:induction false} NextReached(nodes: Nodes, x: Id, p: Id)
    requires Chain(nodes) && x in nodes && p in Walk(nodes, x) && nodes[p].next.Some?
    ensures nodes[p].next.value in Walk(nodes, x)
    decreases |Behind(nodes, x)|
  {
    hide So;
    hide Walk;
    hide Chain;
    WalkStep(nodes, x);
    if p == x {
      WalkStep(nodes, nodes[x].next.value);
    } else {
      FewerBehind(nodes, x, nodes[x].next.value);
      NextReached(nodes, nodes[x].next.value, p);
    }
  }

  lemma StillReached(s: State, a: Action, x: Id)
    requires Inv(s) && Enabled(s, a) && Chain(NextNodes(s, a)) && ROOT in NextNodes(s, a)
    requires x in s.nodes && x in Walk(NextNodes(s, a), ROOT)
    ensures x in Walk(s.nodes, ROOT)
  {
    hide So;
    hide Walk;
    hide Chain;
    hide CallOk;
    match a
    case LinkCas(_, _, _) =>
      LinkReaches(s.nodes, NextNodes(s, a), s.calls[a.t].pc.pred, a.id, ROOT, x);
    case UnlinkCas(_) =>
      UnlinkOk(s, a);
      UnlinkReaches(s.nodes, s.calls[a.t].pc.pred, s.calls[a.t].pc.dead, ROOT, x);
    case MarkCas(t) =>
      VictimOk(s, t, s.calls[t].pc.victim);
      MarkReaches(s.nodes, s.calls[a.t].pc.victim, ROOT);
    case _ =>
  }

  lemma StepInv(s: State, a: Action)
    requires Inv(s) && Enabled(s, a)
    ensures Inv(Next(s, a))
  {
    hide So;
    hide Chain;
    hide CallOk;
    hide Walk;
    hide KeepsClean;
    hide KeepsNone;
    hide MarksRemove;
    hide MoveOk;
    hide RetiredOk;
    hide NextNodes;
    hide NextCalls;
    NodesStep(s, a);
    RootStays(s, a);
    SlotsStay(s, a);
    CallsStay(s, a);
    RetiredStay(s, a);
  }

  // ---------- doubling ----------

  /** Doubling the bucket count moves nothing: the list, the buckets and the calls in progress are as they were. */
  lemma DoubleMovesNothing(s: State, t: Tid)
    requires Inv(s) && Enabled(s, Double(t))
    ensures Next(s, Double(t)) == s.(bits := s.bits + 1, clock := s.clock + 1)
  {
    hide So;
    hide Chain;
    hide RetiredOk;
    hide Absent;
    hide PcOk;
    forall x | x in s.calls
      ensures Watch(s.nodes, s.calls[x]) == s.calls[x]
    {
      assert CallOk(s.nodes, s.calls[x]);
    }
    assert Observe(s.nodes, s.calls - {t}) == s.calls;
  }

  // ---------- answers ----------

  /** The contents of the map: the keys of the unmarked regular nodes. */
  function Elements(nodes: Nodes): set<Key> {
    set x | x in nodes && !nodes[x].marked && nodes[x].key.Regular? :: nodes[x].key
  }

  lemma ElementsAbsent(nodes: Nodes, key: Key)
    requires key.Regular?
    ensures key in Elements(nodes) <==> !Absent(nodes, key)
  {
  }

  /** The contents change by exactly the key of a successful insert or remove, at its compare-and-swap. */
  lemma ElementsStep(s: State, a: Action)
    requires Inv(s) && Enabled(s, a)
    ensures Report(s, a) == Some(Inserted) ==>
      && s.calls[a.t].key !in Elements(s.nodes)
      && Elements(Next(s, a).nodes) == Elements(s.nodes) + {s.calls[a.t].key}
    ensures Report(s, a) == Some(Removed) ==>
      && s.calls[a.t].key in Elements(s.nodes)
      && Elements(Next(s, a).nodes) == Elements(s.nodes) - {s.calls[a.t].key}
    ensures Report(s, a) !in {Some(Inserted), Some(Removed)} ==> Elements(Next(s, a).nodes) == Elements(s.nodes)
  {
    hide So;
    hide Chain;
    hide RetiredOk;
    hide Absent;
    hide PcOk;
    hide LoadedNode;
    hide Visited;
    match a
    case LinkCas(t, id, rank) =>
      assert CallOk(s.nodes, s.calls[t]);
      LinkElements(s, a);
    case MarkCas(t) =>
      VictimOk(s, t, s.calls[t].pc.victim);
      MarkElements(s.nodes, s.calls[t].pc.victim);
    case UnlinkCas(t) =>
      UnlinkElements(s.nodes, s.calls[t].pc.pred, s.calls[t].pc.dead);
    case _ =>
  }

  lemma LinkElements(s: State, a: Action)
    requires Inv(s) && a.LinkCas? && Enabled(s, a)
    ensures s.calls[a.t].key !in Elements(s.nodes)
    ensures s.calls[a.t].key.Regular? ==> Elements(NextNodes(s, a)) == Elements(s.nodes) + {s.calls[a.t].key}
    ensures s.calls[a.t].key.Sentinel? ==> Elements(NextNodes(s, a)) == Elements(s.nodes)
  {
    hide So;
    hide Chain;
    hide RetiredOk;
    hide CallOk;
    LinkOkFor(s, a);
    var nodes, after, key := s.nodes, NextNodes(s, a), s.calls[a.t].key;
    forall k | k in Elements(nodes)
      ensures k in Elements(after)
    {
      var x :| x in nodes && !nodes[x].marked && nodes[x].key == k;
      assert x in after && !after[x].marked && after[x].key == k;
    }
    if key.Regular? {
      assert after[a.id].key == key && !after[a.id].marked;
    }
  }

  lemma MarkElements(nodes: Nodes, v: Id)
    requires Chain(nodes) && CanMark(nodes, v)
    ensures nodes[v].key in Elements(nodes)
    ensures Elements(Mark(nodes, v)) == Elements(nodes) - {nodes[v].key}
  {
    hide So;
    hide Linked;
    hide Ordered;
    var after := Mark(nodes, v);
    forall k | k in Elements(nodes) && k != nodes[v].key
      ensures k in Elements(after)
    {
      var x :| x in nodes && !nodes[x].marked && nodes[x].key == k;
      assert x in after && !after[x].marked && after[x].key == k;
    }
    forall k | k in Elements(after)
      ensures k in Elements(nodes) && k != nodes[v].key
    {
      var x :| x in after && !after[x].marked && after[x].key == k;
      assert !SameLiveKey(nodes[x], nodes[v]);
    }
  }

  lemma UnlinkElements(nodes: Nodes, p: Id, c: Id)
    requires p in nodes && c in nodes
    ensures Elements(Unlink(nodes, p, c)) == Elements(nodes)
  {
    var after := Unlink(nodes, p, c);
    forall k
      ensures k in Elements(after) <==> k in Elements(nodes)
    {
      if k in Elements(nodes) {
        var x :| x in nodes && !nodes[x].marked && nodes[x].key == k;
        assert x in after && !after[x].marked && after[x].key == k;
      }
    }
  }

  /** A call that answers "present" answers at an instant when the key is there. */
  lemma PresentAnswers(s: State, a: Action)
    requires Inv(s) && Enabled(s, a) && Report(s, a) in {Some(AlreadyExists), Some(Updated), Some(Found)}
    ensures a.t in s.calls && !Absent(s.nodes, s.calls[a.t].key)
  {
    hide So;
    hide Chain;
    hide RetiredOk;
    hide Passed;
    hide Clean;
    hide Matches;
    var c := s.calls[a.t];
    assert CallOk(s.nodes, c);
    if a.Confirm? {
      assert PcOk(s.nodes, c);
    } else {
      var x := c.pc.curr.value;
      ChainKeys(s.nodes, x);
      MatchesIsEquality(s.nodes[x].key, c.key);
    }
  }

  lemma AbsentAnswers(s: State, a: Action)
    requires Inv(s) && Enabled(s, a) && Report(s, a) == Some(NotFound)
    ensures a.t in s.calls && s.calls[a.t].seenAbsent
  {
    hide So;
    hide Chain;
    hide RetiredOk;
    hide Absent;
    hide NoneBefore;
    var c := s.calls[a.t];
    assert CallOk(s.nodes, c);
    if a.Visit? && !c.seenAbsent {
      AbsentIfBeyond(s.nodes, c.pc.curr, c.key);
    }
    if c.pc.Visiting? && c.pc.curr.None? {
      NoneAnywhere(s.nodes, c.key);
    }
  }

  // ---------- runs ----------

  ghost predicate IsRun(run: seq<State>, actions: seq<Action>) {
    && |run| == |actions| + 1 && Init(run[0])
    && forall i :: 0 <= i < |actions| ==> Enabled(run[i], actions[i]) && run[i + 1] == Next(run[i], actions[i])
  }

  lemma {:induction false} RunInv(run: seq<State>, actions: seq<Action>, i: nat)
    requires IsRun(run, actions) && i < |run|
    ensures Inv(run[i]) && run[i].clock == i
  {
    hide Inv;
    hide Enabled;
    if i == 0 {
      InitHolds(run[0]);
    } else {
      RunInv(run, actions, i - 1);
      StepInv(run[i - 1], actions[i - 1]);
      assert run[i] == Next(run[i - 1], actions[i - 1]);
    }
  }

  /** The key is a bucket of a table with so many bits. */
  predicate Fits(key: Key, bits: nat) {
    key.Sentinel? ==> Value(key.bucket) < Pow2(bits)
  }

  ghost predicate AllFit(s: State) {
    && s.bits <= MAX_BITS && (forall k :: k in s.slots ==> Fits(k, s.bits))
    && forall t :: t in s.calls ==> Fits(s.calls[t].key, s.bits)
  }

  lemma StartFits(s: State, a: Action)
    requires a.Start? && Enabled(s, a)
    ensures Fits(a.key, s.bits)
  {
    hide Value;
    hide Pow2;
    hide Parent;
    hide Bucket;
    hide Position;
    hide IsTopBit;
    if a.key.Sentinel? {
      TopBitBound(a.key.bucket, a.bits);
      Pow2Monotone(Position(a.bits) + 1, s.bits);
    }
  }

  lemma FitsLater(bits: nat, key: Key)
    requires Fits(key, bits)
    ensures Fits(key, bits + 1)
  {
    Pow2Monotone(bits, bits + 1);
  }

  lemma FitStep(s: State, a: Action)
    requires Enabled(s, a) && AllFit(s)
    ensures AllFit(Next(s, a))
  {
    hide Fits;
    hide NextNodes;
    hide Absent;
    hide HeadOf;
    hide Progressed;
    hide Position;
    forall t | t in Next(s, a).calls
      ensures Fits(Next(s, a).calls[t].key, s.bits)
    {
      CallStep(s, a, t);
      if a.Start? {
        StartFits(s, a);
      }
    }
    forall k | Fits(k, s.bits)
      ensures Fits(k, s.bits + 1)
    {
      FitsLater(s.bits, k);
    }
  }

  lemma {:induction false} RunFits(run: seq<State>, actions: seq<Action>, i: nat)
    requires IsRun(run, actions) && i < |run|
    ensures AllFit(run[i])
  {
    hide Enabled;
    hide Next;
    if i == 0 {
      RootFits();
    } else {
      RunFits(run, actions, i - 1);
      hide AllFit;
      assert run[i - 1 + 1] == Next(run[i - 1], actions[i - 1]);
      FitStep(run[i - 1], actions[i - 1]);
    }
  }

  lemma RootFits()
    ensures Fits(Sentinel(0), INIT_BITS)
  {
    assert Zero(0);
  }

  /**
   Every bucket in use is below the current bucket count, and however often that is doubled, the directory of 32
   segments has a place for it.
   */
  lemma DirectoryHolds(run: seq<State>, actions: seq<Action>, i: nat, k: Key)
    requires IsRun(run, actions) && i < |run| && k in run[i].slots
    ensures k.Sentinel? && Value(k.bucket) < Pow2(run[i].bits) && run[i].bits <= MAX_BITS
    ensures Location(Value(k.bucket)).0 < MAX_SEGMENTS
  {
    hide IsRun;
    hide Chain;
    hide CallOk;
    hide RetiredOk;
    hide Location;
    hide Value;
    hide Pow2;
    RunInv(run, actions, i);
    RunFits(run, actions, i);
    Pow2Monotone(run[i].bits, MAX_BITS);
    LocationInDirectory(Value(k.bucket));
  }

  /** Some instant of the call, from its start to state j, when the key was (not) in the map. */
  ghost predicate SomeInstant(run: seq<State>, since: nat, j: nat, key: Key, present: bool)
    requires j < |run|
  {
    exists m :: since <= m <= j && (present <==> key in Elements(run[m].nodes))
  }

  ghost predicate StartedBy(actions: seq<Action>, t: Tid, c: Call) {
    && 1 <= c.since <= |actions|
    && var a := actions[c.since - 1];
    a.Start? && a.t == t && a.op == c.op && a.key == c.key
  }

  /** What a step does to the record of a call. */
  lemma CallStep(s: State, a: Action, t: Tid)
    requires Enabled(s, a) && t in Next(s, a).calls
    ensures
      var c := Next(s, a).calls[t];
      var now := !Absent(Next(s, a).nodes, c.key);
      if a.Start? && a.t == t then
        && c.since == s.clock + 1 && c.op == a.op && c.key == a.key
        && (c.seenAbsent <==> !now) && (c.seenPresent <==> now)
      else
        && t in s.calls && c.since == s.calls[t].since && c.op == s.calls[t].op && c.key == s.calls[t].key
        && (c.seenAbsent <==> s.calls[t].seenAbsent || !now) && (c.seenPresent <==> s.calls[t].seenPresent || now)
  {
    hide So;
    hide Absent;
    hide NextNodes;
    hide Progressed;
    hide Enabled;
    if Progressed(s, a).Continue? {
      ProgressKeeps(s, a);
    }
  }

  /** A step moves its call on, and changes nothing else about it. */
  lemma ProgressKeeps(s: State, a: Action)
    requires Enabled(s, a) && Progressed(s, a).Continue?
    ensures
      var c := Progressed(s, a).call;
      if a.Start? then
        c.since == s.clock + 1 && c.op == a.op && c.key == a.key && !c.seenAbsent && !c.seenPresent
      else
        a.t in s.calls && c == s.calls[a.t].(pc := c.pc)
  {
    hide So;
    hide Matches;
    hide HeadOf;
  }

  /** The flags mean what they say, and a call began with its start step. */
  lemma {:induction false} FlagsMeaning(run: seq<State>, actions: seq<Action>, j: nat, t: Tid)
    requires IsRun(run, actions) && j < |run| && t in run[j].calls && run[j].calls[t].key.Regular?
    ensures var c := run[j].calls[t];
      && StartedBy(actions, t, c) && c.since <= j
      && (c.seenAbsent ==> SomeInstant(run, c.since, j, c.key, false))
      && (c.seenPresent ==> SomeInstant(run, c.since, j, c.key, true))
  {
    hide Elements;
    hide Enabled;
    hide Next;
    hide Absent;
    hide SomeInstant;
    hide Inv;
    assert j > 0;
    var s, a, c := run[j - 1], actions[j - 1], run[j].calls[t];
    assert run[j] == Next(s, a);
    CallStep(s, a, t);
    RunInv(run, actions, j - 1);
    ElementsAbsent(run[j].nodes, c.key);
    if !(a.Start? && a.t == t) {
      FlagsMeaning(run, actions, j - 1, t);
    }
    InstantNow(run, c.since, j, c.key);
    InstantLater(run, c.since, j, c.key);
  }

  lemma InstantNow(run: seq<State>, since: nat, j: nat, key: Key)
    requires since <= j < |run|
    ensures SomeInstant(run, since, j, key, key in Elements(run[j].nodes))
  {
  }

  lemma InstantLater(run: seq<State>, since: nat, j: nat, key: Key)
    requires 0 < j < |run|
    ensures forall present :: SomeInstant(run, since, j - 1, key, present) ==> SomeInstant(run, since, j, key, present)
  {
  }

  /**
   Every answer is right at one instant of the call: a successful insert or remove at its own
   compare-and-swap, which alone changes the contents, and every other answer at some state between the
   start of the call and its end.
   */
  lemma Linearizable(run: seq<State>, actions: seq<Action>, i: nat)
    requires IsRun(run, actions) && i < |actions| && Report(run[i], actions[i]).Some?
    ensures var t := actions[i].t;
      t in run[i].calls &&
      var c := run[i].calls[t];
      var before, after := Elements(run[i].nodes), Elements(run[i + 1].nodes);
      StartedBy(actions, t, c) && c.since <= i &&
      match Report(run[i], actions[i]).value {
        case Inserted => c.key !in before && after == before + {c.key}
        case Removed => c.key in before && after == before - {c.key}
        case AlreadyExists => after == before && SomeInstant(run, c.since, i, c.key, true)
        case Updated => after == before && SomeInstant(run, c.since, i, c.key, true)
        case Found => after == before && SomeInstant(run, c.since, i, c.key, true)
        case NotFound => after == before && SomeInstant(run, c.since, i, c.key, false)
      }
  {
    hide Elements;
    hide Inv;
    hide SomeInstant;
    hide StartedBy;
    hide Absent;
    hide Next;
    var s, a := run[i], actions[i];
    RunInv(run, actions, i);
    assert Enabled(s, a) && run[i + 1] == Next(s, a);
    AnsweringCall(s, a);
    FlagsMeaning(run, actions, i, a.t);
    ElementsStep(s, a);
    match Report(s, a).value
    case NotFound => AbsentAnswers(s, a);
    case Inserted =>
    case Removed =>
    case _ =>
      PresentAnswers(s, a);
      SeenNow(s, a.t);
  }

  lemma AnsweringCall(s: State, a: Action)
    requires Enabled(s, a) && Inv(s) && Report(s, a).Some?
    ensures a.t in s.calls && s.calls[a.t].key.Regular?
  {
    hide So;
    hide Chain;
    hide RetiredOk;
    hide Absent;
    if a.t in s.calls {
      assert CallOk(s.nodes, s.calls[a.t]);
    }
  }

  lemma SeenNow(s: State, t: Tid)
    requires Inv(s) && t in s.calls && !Absent(s.nodes, s.calls[t].key)
    ensures s.calls[t].seenPresent
  {
    hide So;
    hide Chain;
    hide RetiredOk;
    hide Absent;
    assert CallOk(s.nodes, s.calls[t]);
  }

  /**
   In every reachable state the walk from the root meets every element and no retired node, and all the nodes it
   meets, marked or not, come in split order and only once.
   */
  lemma WalkFromRoot(run: seq<State>, actions: seq<Action>, i: nat)
    requires IsRun(run, actions) && i < |run|
    ensures Chain(run[i].nodes) && ROOT in run[i].nodes
    ensures forall x :: x in run[i].nodes && !run[i].nodes[x].marked ==> x in Walk(run[i].nodes, ROOT)
    ensures forall x :: x in run[i].retired ==> x !in Walk(run[i].nodes, ROOT)
    ensures
      var nodes, walk := run[i].nodes, Walk(run[i].nodes, ROOT);
      forall j, k :: 0 <= j < k < |walk| ==> So(nodes[walk[j]].key) <= So(nodes[walk[k]].key) && walk[j] != walk[k]
  {
    hide So;
    hide Walk;
    hide Chain;
    hide CallOk;
    hide IsRun;
    RunInv(run, actions, i);
    var nodes := run[i].nodes;
    forall x | x in nodes && !nodes[x].marked
      ensures x in Walk(nodes, ROOT)
    {
      LiveReached(nodes, ROOT, x);
    }
    forall j, k | 0 <= j < k < |Walk(nodes, ROOT)|
      ensures So(nodes[Walk(nodes, ROOT)[j]].key) <= So(nodes[Walk(nodes, ROOT)[k]].key)
      ensures Walk(nodes, ROOT)[j] != Walk(nodes, ROOT)[k]
    {
      WalkSorted(nodes, ROOT, j, k);
    }
  }

  /** In no run does a failed search end at a node with the order it looked for: it ends behind it or at the end. */
  lemma MissedIsLarger(run: seq<State>, actions: seq<Action>, i: nat, t: Tid)
    requires IsRun(run, actions) && i < |run| && t in run[i].calls && run[i].calls[t].pc.Missed?
    ensures var c := run[i].calls[t];
      c.pc.curr.Some? ==> c.pc.curr.value in run[i].nodes && So(run[i].nodes[c.pc.curr.value].key) > So(c.key)
  {
    hide So;
    hide Chain;
    hide RetiredOk;
    hide Absent;
    hide IsRun;
    RunInv(run, actions, i);
    assert CallOk(run[i].nodes, run[i].calls[t]);
  }

  /** No node is handed to reclamation twice. */
  lemma RetiredOnce(run: seq<State>, actions: seq<Action>, i: nat)
    requires IsRun(run, actions) && i < |actions| && actions[i].UnlinkCas?
    ensures Enabled(run[i], actions[i]) && run[i].calls[actions[i].t].pc.dead !in run[i].retired
    ensures run[i + 1].retired == run[i].retired + {run[i].calls[actions[i].t].pc.dead}
  {
    hide So;
    hide Chain;
    hide Walk;
    hide CallOk;
    hide RetiredOk;
    hide KeepsClean;
    hide KeepsNone;
    hide MarksRemove;
    RunInv(run, actions, i);
    assert Enabled(run[i], actions[i]) && run[i + 1] == Next(run[i], actions[i]);
    NodesStep(run[i], actions[i]);
    RetiredStay(run[i], actions[i]);
  }

  /** The rank a link step needs always exists, so it never holds up a compare-and-swap that would succeed. */
  lemma LinkNeverBlocked(s: State, t: Tid)
    requires t in s.calls && s.calls[t].pc.Missed? && s.calls[t].op in {Insert, Put, InitBucket}
    requires s.calls[t].pc.pred in s.nodes
    requires !s.nodes[s.calls[t].pc.pred].marked && s.nodes[s.calls[t].pc.pred].next == s.calls[t].pc.curr
    ensures exists id, rank :: Enabled(s, LinkCas(t, id, rank))
  {
    var rank := RankExists(s.nodes, s.calls[t].pc.pred, s.nodes.Keys);
    var id := FreshId(s.nodes.Keys);
    assert Enabled(s, LinkCas(t, id, rank));
  }

  lemma {:induction false} FreshId(ids: set<Id>) returns (id: Id)
    ensures id !in ids && forall x :: x in ids ==> x < id
    decreases |ids|
  {
    if ids == {} {
      id := 0;
    } else {
      var x :| x in ids;
      var above := FreshId(ids - {x});
      id := if above <= x then x + 1 else above;
      assert forall y :: y in ids ==> y == x || y in ids - {x};
    }
  }
}
