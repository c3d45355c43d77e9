/**
 Epoch-based reclamation as a state machine. Every atomic load, store or compare-and-swap is one
 action; any number of handles and of concurrent advance and sync calls interleave freely.

 History kept beside the protocol: for each active handle the epoch at the moment it announced
 itself, and for each unlinked pointer the handles that have been active ever since.
 */
module Ebr {

  type Ptr = nat

  /** A retired pointer with the epoch it was retired in. */
  datatype Node = Node(ptr: Ptr, epoch: nat)

  /** Where the owner of a handle is inside an operation. */
  datatype Op =
    | Idle
    | EnterLoaded(g: nat)          // epoch read, not announced yet
    | ExitCleared                  // announcement withdrawn, epoch not read yet
    | RetireBegun(ptr: Ptr)        // epoch not read yet
    | RetireLoaded(ptr: Ptr, g: nat)
    | Reclaim(g: nat)              // about to detach the slot that is safe at epoch g
    | Freeing(dying: seq<Node>)

  datatype Handle = Handle(
    registered: bool,
    active: bool,
    announced: nat,                // epoch stored with the announcement, possibly stale
    announcedAt: nat,              // history: global epoch when it was stored
    local: seq<seq<Node>>,
    op: Op,
    seen: nat)                     // history: latest epoch read by the owner

  /** A call of try_advance or of sync, run by any thread. */
  datatype Call =
    | AdvanceLoaded(g: nat)                        // epoch read, list head not read yet
    | Scanning(g: nat, cur: nat)                   // handles below cur are still ahead
    | SawRegistered(g: nat, cur: nat)              // handle cur - 1 was found registered
    | SyncWaiting(target: nat)
    | Flush(slot: nat, last: nat, limit: nat)      // orphan slots slot..last are still to be flushed
    | Splitting(slot: nat, last: nat, limit: nat, todo: seq<Node>, keep: seq<Node>)
    | Finished

  /** A pointer passed to its free function: when it was retired and when it was freed. */
  datatype Freed = Freed(ptr: Ptr, retiredAt: nat, freedAt: nat)

  datatype State = State(
    epoch: nat,
    handles: seq<Handle>,
    orphans: seq<seq<Node>>,
    calls: seq<Call>,
    unlinked: set<Ptr>,            // unlinked from the data structure, not handed to retire yet
    retired: set<Ptr>,             // history: handed to retire
    guards: map<Ptr, set<nat>>,    // history: handles active since the pointer was unlinked
    freed: seq<Freed>)

  datatype Action =
    | Register
    | Reuse(h: nat)
    | Unregister(h: nat)
    | EnterLoad(h: nat)
    | EnterStore(h: nat)
    | ExitClear(h: nat)
    | ExitLoad(h: nat)
    | Unlink(p: Ptr)
    | RetireBegin(h: nat, p: Ptr)
    | RetireLoad(h: nat)
    | RetirePush(h: nat)
    | Detach(h: nat)
    | FreeLocal(h: nat)
    | AdvanceStart
    | AdvanceHead(k: nat)
    | ScanRegistered(k: nat)
    | ScanActive(k: nat)
    | AdvanceCas(k: nat)
    | SyncStart
    | SyncDone(k: nat)
    | OrphanDetach(k: nat)
    | OrphanSplit(k: nat)
    | OrphanAttach(k: nat)

  const NEW_HANDLE := Handle(true, false, 0, 0, [[], [], []], Idle, 0)

  function Init(): State {
    State(0, [], [[], [], []], [], {}, {}, map[], [])
  }

  // -------------------------------------------------------------------------
  // Actions
  // -------------------------------------------------------------------------

  predicate Owned(s: State, h: nat) {
    h < |s.handles| && s.handles[h].registered
  }

  predicate Idling(s: State, h: nat) {
    Owned(s, h) && s.handles[h].op.Idle?
  }

  /** May this action happen now? Sections are not nested and a pointer is retired once, after its unlinking. */
  predicate Enabled(s: State, a: Action) {
    match a
    case Register => true
    case Reuse(h) => h < |s.handles| && !s.handles[h].registered
    case Unregister(h) => Idling(s, h)
    case EnterLoad(h) => Idling(s, h) && !s.handles[h].active
    case EnterStore(h) => Owned(s, h) && s.handles[h].op.EnterLoaded?
    case ExitClear(h) => Idling(s, h) && s.handles[h].active
    case ExitLoad(h) => Owned(s, h) && s.handles[h].op.ExitCleared?
    case Unlink(p) => p !in s.guards
    case RetireBegin(h, p) => Idling(s, h) && p in s.unlinked
    case RetireLoad(h) => Owned(s, h) && s.handles[h].op.RetireBegun?
    case RetirePush(h) => Owned(s, h) && s.handles[h].op.RetireLoaded?
    case Detach(h) => Owned(s, h) && s.handles[h].op.Reclaim?
    case FreeLocal(h) => Owned(s, h) && s.handles[h].op.Freeing?
    case AdvanceStart => true
    case AdvanceHead(k) => k < |s.calls| && s.calls[k].AdvanceLoaded?
    case ScanRegistered(k) => k < |s.calls| && s.calls[k].Scanning? && 0 < s.calls[k].cur <= |s.handles|
    case ScanActive(k) => k < |s.calls| && s.calls[k].SawRegistered? && 0 < s.calls[k].cur <= |s.handles|
    case AdvanceCas(k) => k < |s.calls| && s.calls[k].Scanning? && s.calls[k].cur == 0
    case SyncStart => true
    case SyncDone(k) => k < |s.calls| && s.calls[k].SyncWaiting? && s.epoch >= s.calls[k].target
    case OrphanDetach(k) => k < |s.calls| && s.calls[k].Flush?
    case OrphanSplit(k) => k < |s.calls| && s.calls[k].Splitting? && s.calls[k].todo != []
    case OrphanAttach(k) => k < |s.calls| && s.calls[k].Splitting? && s.calls[k].todo == []
  }

  function WithHandle(s: State, h: nat, v: Handle): State
    requires h < |s.handles|
  {
    s.(handles := s.handles[h := v])
  }

  function WithCall(s: State, k: nat, c: Call): State
    requires k < |s.calls|
  {
    s.(calls := s.calls[k := c])
  }

  /** Splice the three local lists in front of the orphan lists. */
  function Spliced(local: seq<seq<Node>>, orphans: seq<seq<Node>>): seq<seq<Node>>
    requires |local| == 3 && |orphans| == 3
  {
    [local[0] + orphans[0], local[1] + orphans[1], local[2] + orphans[2]]
  }

  /** No section of handle `h` runs any more. */
  function Unguarded(guards: map<Ptr, set<nat>>, h: nat): map<Ptr, set<nat>> {
    map p | p in guards :: guards[p] - {h}
  }

  function ActiveHandles(s: State): set<nat> {
    set h | 0 <= h < |s.handles| && s.handles[h].active
  }

  predicate Shaped(s: State) {
    && |s.orphans| == 3
    && (forall v :: v in s.handles ==> |v.local| == 3)
    && (forall c :: c in s.calls ==> ((c.Flush? || c.Splitting?) ==> c.slot < 3) && (c.SyncWaiting? ==> c.target >= 3))
  }

  function Apply(s: State, a: Action): State
    requires Shaped(s) && Enabled(s, a)
  {
    match a
    case Register => s.(handles := s.handles + [NEW_HANDLE])
    case Reuse(h) =>
      WithHandle(s, h, s.handles[h].(registered := true, active := false, local := [[], [], []], op := Idle))
      .(orphans := Spliced(s.handles[h].local, s.orphans))
    case Unregister(h) =>
      WithHandle(s, h, s.handles[h].(registered := false, active := false, local := [[], [], []]))
      .(orphans := Spliced(s.handles[h].local, s.orphans), guards := Unguarded(s.guards, h))
    case EnterLoad(h) =>
      WithHandle(s, h, s.handles[h].(op := EnterLoaded(s.epoch), seen := s.epoch))
    case EnterStore(h) =>
      var g := s.handles[h].op.g;
      WithHandle(s, h, s.handles[h].(active := true, announced := g, announcedAt := s.epoch, op := Reclaim(g)))
    case ExitClear(h) =>
      WithHandle(s, h, s.handles[h].(active := false, op := ExitCleared)).(guards := Unguarded(s.guards, h))
    case ExitLoad(h) =>
      WithHandle(s, h, s.handles[h].(op := Reclaim(s.epoch), seen := s.epoch))
    case Unlink(p) =>
      s.(unlinked := s.unlinked + {p}, guards := s.guards[p := ActiveHandles(s)])
    case RetireBegin(h, p) =>
      WithHandle(s, h, s.handles[h].(op := RetireBegun(p)))
      .(unlinked := s.unlinked - {p}, retired := s.retired + {p})
    case RetireLoad(h) =>
      WithHandle(s, h, s.handles[h].(op := RetireLoaded(s.handles[h].op.ptr, s.epoch), seen := s.epoch))
    case RetirePush(h) =>
      var v := s.handles[h];
      var slot := v.op.g % 3;
      WithHandle(s, h, v.(op := Reclaim(v.op.g), local := v.local[slot := [Node(v.op.ptr, v.op.g)] + v.local[slot]]))
    case Detach(h) =>
      var v := s.handles[h];
      var slot := (v.op.g + 1) % 3;
      WithHandle(s, h, v.(op := Freeing(v.local[slot]), local := v.local[slot := []]))
    case FreeLocal(h) =>
      var v := s.handles[h];
      var dying := v.op.dying;
      if dying == [] then WithHandle(s, h, v.(op := Idle))
      else WithHandle(s, h, v.(op := Freeing(dying[1..])))
           .(freed := s.freed + [Freed(dying[0].ptr, dying[0].epoch, s.epoch)])
    case AdvanceStart => s.(calls := s.calls + [AdvanceLoaded(s.epoch)])
    case AdvanceHead(k) => WithCall(s, k, Scanning(s.calls[k].g, |s.handles|))
    case ScanRegistered(k) =>
      var c := s.calls[k];
      WithCall(s, k, if s.handles[c.cur - 1].registered then SawRegistered(c.g, c.cur) else Scanning(c.g, c.cur - 1))
    case ScanActive(k) =>
      var c := s.calls[k];
      var v := s.handles[c.cur - 1];
      WithCall(s, k, if v.active && v.announced < c.g then Finished else Scanning(c.g, c.cur - 1))
    case AdvanceCas(k) =>
      var g := s.calls[k].g;
      if s.epoch == g then
        WithCall(s, k, Flush((g + 2) % 3, (g + 2) % 3, if g > 0 then g - 1 else 0)).(epoch := g + 1)
      else WithCall(s, k, Finished)
    case SyncStart => s.(calls := s.calls + [SyncWaiting(s.epoch + 3)])
    case SyncDone(k) => WithCall(s, k, Flush(0, 2, s.calls[k].target - 2))
    case OrphanDetach(k) =>
      var c := s.calls[k];
      WithCall(s, k, Splitting(c.slot, c.last, c.limit, s.orphans[c.slot], [])).(orphans := s.orphans[c.slot := []])
    case OrphanSplit(k) =>
      var c := s.calls[k];
      var n := c.todo[0];
      if n.epoch > c.limit then WithCall(s, k, c.(todo := c.todo[1..], keep := c.keep + [n]))
      else WithCall(s, k, c.(todo := c.todo[1..])).(freed := s.freed + [Freed(n.ptr, n.epoch, s.epoch)])
    case OrphanAttach(k) =>
      var c := s.calls[k];
      WithCall(s, k, if c.slot < c.last then Flush(c.slot + 1, c.last, c.limit) else Finished)
      .(orphans := s.orphans[c.slot := c.keep + s.orphans[c.slot]])
  }

  // -------------------------------------------------------------------------
  // The invariant
  // -------------------------------------------------------------------------

  /** Every handle that still guards the pointer announced itself no later than the pointer was retired. */
  ghost predicate Guarded(s: State, n: Node) {
    n.ptr in s.guards &&
    forall h: nat :: h in s.guards[n.ptr] ==> h < |s.handles| && s.handles[h].announcedAt <= n.epoch
  }

  /** The nodes of slot `slot`, none retired after epoch `bound`. */
  ghost predicate ListOk(s: State, l: seq<Node>, slot: nat, bound: nat) {
    forall n :: n in l ==> n.epoch % 3 == slot && n.epoch <= bound && Guarded(s, n)
  }

  ghost predicate OpOk(s: State, v: Handle) {
    match v.op
    case Idle => true
    case EnterLoaded(g) => g == v.seen && !v.active
    case ExitCleared => true
    case RetireBegun(p) => p in s.guards
    case RetireLoaded(p, g) => g == v.seen && Guarded(s, Node(p, g))
    case Reclaim(g) => g == v.seen
    case Freeing(dying) => forall n :: n in dying ==> n.epoch + 2 <= s.epoch && Guarded(s, n)
  }

  /** The global epoch is at most one ahead of its value when an active handle announced itself. */
  ghost predicate HandleOk(s: State, v: Handle) {
    && (v.active ==> v.registered && v.announced <= v.announcedAt <= s.epoch <= v.announcedAt + 1)
    && (!v.registered ==> v.op.Idle?)
    && v.seen <= s.epoch
    && |v.local| == 3
    && (forall i :: 0 <= i < 3 ==> ListOk(s, v.local[i], i, v.seen))
    && OpOk(s, v)
  }

  /** An advance that started after a handle's announcement still has that handle ahead of it. */
  ghost predicate ScanOk(s: State, g: nat, cur: nat) {
    && g <= s.epoch
    && cur <= |s.handles|
    && forall h :: 0 <= h < |s.handles| && s.handles[h].active && s.handles[h].announcedAt < g ==> h < cur
  }

  /** Flushing this orphan slot up to this limit frees only nodes at least two epochs old. */
  ghost predicate LimitOk(s: State, slot: nat, last: nat, limit: nat) {
    slot <= last < 3 && (limit + 2 <= s.epoch || (limit == 0 && slot == 2))
  }

  ghost predicate CallOk(s: State, c: Call) {
    match c
    case AdvanceLoaded(g) => g <= s.epoch
    case Scanning(g, cur) => ScanOk(s, g, cur)
    case SawRegistered(g, cur) => ScanOk(s, g, cur) && cur > 0
    case SyncWaiting(target) => target >= 3
    case Flush(slot, last, limit) => LimitOk(s, slot, last, limit)
    case Splitting(slot, last, limit, todo, keep) =>
      LimitOk(s, slot, last, limit) && ListOk(s, todo, slot, s.epoch) && ListOk(s, keep, slot, s.epoch)
    case Finished => true
  }

  /** A freed pointer was retired at least two epochs earlier and nobody guards it. */
  ghost predicate FreedOk(s: State, f: Freed) {
    f.retiredAt + 2 <= f.freedAt <= s.epoch && f.ptr in s.guards && s.guards[f.ptr] == {}
  }

  ghost predicate Inv(s: State) {
    && Shaped(s)
    && (forall h :: 0 <= h < |s.handles| ==> HandleOk(s, s.handles[h]))
    && (forall i :: 0 <= i < 3 ==> ListOk(s, s.orphans[i], i, s.epoch))
    && (forall k :: 0 <= k < |s.calls| ==> CallOk(s, s.calls[k]))
    && GuardsOk(s)
    && (forall i :: 0 <= i < |s.freed| ==> FreedOk(s, s.freed[i]))
  }

  lemma InitInv()
    ensures Inv(Init())
  {
  }

  /** Handles listed as guards are active; retired and unlinked pointers are tracked. */
  ghost predicate GuardsOk(s: State) {
    && (forall p :: p in s.guards ==> forall h :: h in s.guards[p] ==> 0 <= h < |s.handles| && s.handles[h].active)
    && s.unlinked <= s.guards.Keys && s.retired <= s.guards.Keys && s.unlinked !! s.retired
  }

  /** What no action breaks for the parts of the state it does not touch. */
  ghost predicate Later(s: State, s': State) {
    && (s'.epoch == s.epoch ||
        (s'.epoch == s.epoch + 1 && forall v :: v in s.handles && v.active ==> v.announcedAt == s.epoch))
    && |s.handles| <= |s'.handles|
    && s.guards.Keys <= s'.guards.Keys
    && (forall p :: p in s.guards ==> s'.guards[p] <= s.guards[p])
    && (forall p: Ptr, h: nat :: p in s.guards && h in s'.guards[p] && h < |s.handles| ==>
          s'.handles[h].announcedAt == s.handles[h].announcedAt)
    && (forall h :: 0 <= h < |s'.handles| && s'.handles[h].active ==>
          s'.handles[h].announcedAt >= s.epoch ||
          (h < |s.handles| && s.handles[h].active && s'.handles[h].announcedAt == s.handles[h].announcedAt))
  }

  lemma GuardedLater(s: State, s': State, n: Node)
    requires Later(s, s') && Guarded(s, n)
    ensures Guarded(s', n)
  {
    var p := n.ptr;
    assert p in s.guards && p in s'.guards.Keys;
    forall h: nat | h in s'.guards[p]
      ensures h < |s'.handles| && s'.handles[h].announcedAt <= n.epoch
    {
      assert h in s.guards[p];
    }
  }

  lemma ListLater(s: State, s': State, l: seq<Node>, slot: nat, bound: nat, bound': nat)
    requires Later(s, s') && ListOk(s, l, slot, bound) && bound <= bound'
    ensures ListOk(s', l, slot, bound')
  {
    hide Guarded;
    forall n | n in l ensures Guarded(s', n) { GuardedLater(s, s', n); }
  }

  lemma HandleLater(s: State, s': State, v: Handle)
    requires Later(s, s') && HandleOk(s, v) && v in s.handles
    ensures HandleOk(s', v)
  {
    hide ListOk;
    hide Guarded;
    forall i | 0 <= i < 3 ensures ListOk(s', v.local[i], i, v.seen) {
      ListLater(s, s', v.local[i], i, v.seen, v.seen);
    }
    assert OpOk(s', v) by {
      match v.op
      case RetireLoaded(p, g) => GuardedLater(s, s', Node(p, g));
      case Freeing(dying) => forall n | n in dying ensures Guarded(s', n) { GuardedLater(s, s', n); }
      case _ =>
    }
  }

  lemma CallLater(s: State, s': State, c: Call)
    requires Later(s, s') && CallOk(s, c)
    ensures CallOk(s', c)
  {
    hide ListOk;
    if c.Splitting? {
      ListLater(s, s', c.todo, c.slot, s.epoch, s'.epoch);
      ListLater(s, s', c.keep, c.slot, s.epoch, s'.epoch);
    }
  }

  /** An action keeps the invariant if what it changed is in order. */
  lemma Rebuild(s: State, s': State)
    requires Inv(s) && Later(s, s') && Shaped(s') && GuardsOk(s')
    requires forall h :: 0 <= h < |s'.handles| ==>
      (h < |s.handles| && s'.handles[h] == s.handles[h]) || HandleOk(s', s'.handles[h])
    requires forall i :: 0 <= i < 3 ==> s'.orphans[i] == s.orphans[i] || ListOk(s', s'.orphans[i], i, s'.epoch)
    requires forall k :: 0 <= k < |s'.calls| ==> (k < |s.calls| && s'.calls[k] == s.calls[k]) || CallOk(s', s'.calls[k])
    requires forall i :: 0 <= i < |s'.freed| ==>
      (i < |s.freed| && s'.freed[i] == s.freed[i]) || FreedOk(s', s'.freed[i])
    ensures Inv(s')
  {
    hide HandleOk;
    hide ListOk;
    hide CallOk;
    forall h | 0 <= h < |s'.handles| ensures HandleOk(s', s'.handles[h]) {
      if h < |s.handles| && s'.handles[h] == s.handles[h] { HandleLater(s, s', s.handles[h]); }
    }
    forall i | 0 <= i < 3 ensures ListOk(s', s'.orphans[i], i, s'.epoch) {
      if s'.orphans[i] == s.orphans[i] { ListLater(s, s', s.orphans[i], i, s.epoch, s'.epoch); }
    }
    forall k | 0 <= k < |s'.calls| ensures CallOk(s', s'.calls[k]) {
      if k < |s.calls| && s'.calls[k] == s.calls[k] { CallLater(s, s', s.calls[k]); }
    }
  }

  lemma SplicedOk(s: State, s': State, h: nat)
    requires Inv(s) && Later(s, s') && h < |s.handles| && s'.orphans == Spliced(s.handles[h].local, s.orphans)
    ensures forall i :: 0 <= i < 3 ==> ListOk(s', s'.orphans[i], i, s'.epoch)
  {
    forall i | 0 <= i < 3 ensures ListOk(s', s'.orphans[i], i, s'.epoch) {
      assert HandleOk(s, s.handles[h]);
      ListLater(s, s', s.handles[h].local[i], i, s.handles[h].seen, s'.epoch);
      ListLater(s, s', s.orphans[i], i, s.epoch, s'.epoch);
      hide Guarded;
    }
  }

  lemma RegistrationInv(s: State, a: Action)
    requires Inv(s) && Enabled(s, a) && (a.Register? || a.Reuse? || a.Unregister?)
    ensures Inv(Apply(s, a))
  {
    var s' := Apply(s, a);
    hide CallOk;
    if !a.Register? {
      SplicedOk(s, s', a.h);
    }
    Rebuild(s, s');
  }

  lemma EnterInv(s: State, a: Action)
    requires Inv(s) && Enabled(s, a) && (a.EnterLoad? || a.EnterStore?)
    ensures Inv(Apply(s, a))
  {
    var s' := Apply(s, a);
    hide CallOk;
    Rebuild(s, s');
  }

  lemma ExitInv(s: State, a: Action)
    requires Inv(s) && Enabled(s, a) && (a.ExitClear? || a.ExitLoad?)
    ensures Inv(Apply(s, a))
  {
    var s' := Apply(s, a);
    hide CallOk;
    Rebuild(s, s');
  }

  lemma UnlinkInv(s: State, a: Action)
    requires Inv(s) && Enabled(s, a) && a.Unlink?
    ensures Inv(Apply(s, a))
  {
    var s' := Apply(s, a);
    hide CallOk;
    Rebuild(s, s');
  }

  lemma ScanInv(s: State, a: Action)
    requires Inv(s) && Enabled(s, a) && (a.AdvanceStart? || a.AdvanceHead? || a.ScanRegistered? || a.ScanActive?)
    ensures Inv(Apply(s, a))
  {
    var s' := Apply(s, a);
    hide HandleOk;
    Rebuild(s, s');
  }

  lemma AdvanceInv(s: State, a: Action)
    requires Inv(s) && Enabled(s, a) && a.AdvanceCas?
    ensures Inv(Apply(s, a))
  {
    var s' := Apply(s, a);
    hide HandleOk;
    Rebuild(s, s');
  }

  lemma SyncInv(s: State, a: Action)
    requires Inv(s) && Enabled(s, a) && (a.SyncStart? || a.SyncDone?)
    ensures Inv(Apply(s, a))
  {
    var s' := Apply(s, a);
    hide HandleOk;
    Rebuild(s, s');
  }

  lemma RetireInv(s: State, a: Action)
    requires Inv(s) && Enabled(s, a) && (a.RetireBegin? || a.RetireLoad?)
    ensures Inv(Apply(s, a))
  {
    var s' := Apply(s, a);
    hide CallOk;
    Rebuild(s, s');
  }

  lemma PushInv(s: State, a: Action)
    requires Inv(s) && Enabled(s, a) && a.RetirePush?
    ensures Inv(Apply(s, a))
  {
    var s' := Apply(s, a);
    hide CallOk;
    Rebuild(s, s');
  }

  lemma DetachInv(s: State, a: Action)
    requires Inv(s) && Enabled(s, a) && a.Detach?
    ensures Inv(Apply(s, a))
  {
    var s' := Apply(s, a);
    hide CallOk;
    Rebuild(s, s');
  }

  lemma FreeInv(s: State, a: Action)
    requires Inv(s) && Enabled(s, a) && a.FreeLocal?
    ensures Inv(Apply(s, a))
  {
    var s' := Apply(s, a);
    hide CallOk;
    Rebuild(s, s');
  }

  lemma OrphanInv(s: State, a: Action)
    requires Inv(s) && Enabled(s, a) && (a.OrphanDetach? || a.OrphanAttach?)
    ensures Inv(Apply(s, a))
  {
    var s' := Apply(s, a);
    hide HandleOk;
    Rebuild(s, s');
  }

  lemma SplitInv(s: State, a: Action)
    requires Inv(s) && Enabled(s, a) && a.OrphanSplit?
    ensures Inv(Apply(s, a))
  {
    var s' := Apply(s, a);
    hide HandleOk;
    Rebuild(s, s');
  }

  /** Every action keeps the invariant. */
  lemma StepInv(s: State, a: Action)
    requires Inv(s) && Enabled(s, a)
    ensures Inv(Apply(s, a))
  {
    hide Inv;
    hide Enabled;
    hide Apply;
    match a
    case Register => RegistrationInv(s, a);
    case Reuse(_) => RegistrationInv(s, a);
    case Unregister(_) => RegistrationInv(s, a);
    case EnterLoad(_) => EnterInv(s, a);
    case EnterStore(_) => EnterInv(s, a);
    case ExitClear(_) => ExitInv(s, a);
    case ExitLoad(_) => ExitInv(s, a);
    case Unlink(_) => UnlinkInv(s, a);
    case RetireBegin(_, _) => RetireInv(s, a);
    case RetireLoad(_) => RetireInv(s, a);
    case RetirePush(_) => PushInv(s, a);
    case Detach(_) => DetachInv(s, a);
    case FreeLocal(_) => FreeInv(s, a);
    case AdvanceStart => ScanInv(s, a);
    case AdvanceHead(_) => ScanInv(s, a);
    case ScanRegistered(_) => ScanInv(s, a);
    case ScanActive(_) => ScanInv(s, a);
    case AdvanceCas(_) => AdvanceInv(s, a);
    case SyncStart => SyncInv(s, a);
    case SyncDone(_) => SyncInv(s, a);
    case OrphanDetach(_) => OrphanInv(s, a);
    case OrphanSplit(_) => SplitInv(s, a);
    case OrphanAttach(_) => OrphanInv(s, a);
  }

  // -------------------------------------------------------------------------
  // Runs
  // -------------------------------------------------------------------------

  /** A run from the initial state: what happened, and the states in between. */
  ghost predicate IsRun(states: seq<State>, actions: seq<Action>) {
    && |states| == |actions| + 1
    && states[0] == Init()
    && forall i :: 0 <= i < |actions| ==>
         Shaped(states[i]) && Enabled(states[i], actions[i]) && states[i + 1] == Apply(states[i], actions[i])
  }

  lemma {:induction false} RunInv(states: seq<State>, actions: seq<Action>, i: nat)
    requires IsRun(states, actions) && i < |states|
    ensures Inv(states[i])
    decreases i
  {
    hide Inv;
    hide Enabled;
    hide Apply;
    if i == 0 {
      InitInv();
    } else {
      RunInv(states, actions, i - 1);
      StepInv(states[i - 1], actions[i - 1]);
    }
  }

  /** Handle `h` ends its section with this action. */
  predicate Leaves(a: Action, h: nat) {
    a == ExitClear(h) || a == Unregister(h)
  }

  lemma GuardStays(s: State, a: Action, h: nat, p: Ptr)
    requires Inv(s) && Enabled(s, a) && p in s.guards && h in s.guards[p] && !Leaves(a, h)
    ensures p in Apply(s, a).guards && h in Apply(s, a).guards[p]
  {
    hide HandleOk;
    hide CallOk;
    hide ListOk;
  }

  lemma {:induction false} GuardStaysLong(states: seq<State>, actions: seq<Action>, i: nat, j: nat, h: nat, p: Ptr)
    requires IsRun(states, actions) && i <= j < |states|
    requires p in states[i].guards && h in states[i].guards[p]
    requires forall m :: i <= m < j ==> !Leaves(actions[m], h)
    ensures p in states[j].guards && h in states[j].guards[p]
    decreases j
  {
    hide Inv;
    hide Enabled;
    hide Apply;
    if i < j {
      GuardStaysLong(states, actions, i, j - 1, h, p);
      RunInv(states, actions, j - 1);
      GuardStays(states[j - 1], actions[j - 1], h, p);
    }
  }

  /**
   Safety: a pointer unlinked while a handle is inside a section is not freed before that handle
   leaves the section, however stale the epoch it announced.
   */
  lemma SafeReclamation(states: seq<State>, actions: seq<Action>, i: nat, j: nat, h: nat, p: Ptr)
    requires IsRun(states, actions) && i < j < |states|
    requires actions[i] == Unlink(p) && h < |states[i].handles| && states[i].handles[h].active
    requires forall m :: i < m < j ==> !Leaves(actions[m], h)
    ensures forall f :: f in states[j].freed ==> f.ptr != p
  {
    assert h in ActiveHandles(states[i]);
    assert states[i + 1].guards == states[i].guards[p := ActiveHandles(states[i])];
    hide Enabled;
    hide Apply;
    GuardStaysLong(states, actions, i + 1, j, h, p);
    RunInv(states, actions, j);
    forall k | 0 <= k < |states[j].freed| ensures states[j].freed[k].ptr != p {
      assert FreedOk(states[j], states[j].freed[k]);
    }
  }

  /** Everything freed, locally or from the orphan pool, was retired at least two epochs before. */
  lemma FreedTwoEpochsLater(states: seq<State>, actions: seq<Action>, i: nat, f: Freed)
    requires IsRun(states, actions) && i < |states| && f in states[i].freed
    ensures f.retiredAt + 2 <= f.freedAt <= states[i].epoch
  {
    hide Enabled;
    hide Apply;
    RunInv(states, actions, i);
    var k :| 0 <= k < |states[i].freed| && states[i].freed[k] == f;
    assert FreedOk(states[i], f);
  }

  lemma SectionStays(s: State, a: Action, h: nat)
    requires Inv(s) && Enabled(s, a) && h < |s.handles| && s.handles[h].active && !Leaves(a, h)
    ensures h < |Apply(s, a).handles| && Apply(s, a).handles[h].active
    ensures Apply(s, a).handles[h].announcedAt == s.handles[h].announcedAt
  {
    hide CallOk;
    hide ListOk;
    assert HandleOk(s, s.handles[h]);
  }

  /** While a section lasts, the global epoch rises by at most one above its value at the announcement. */
  lemma {:induction false} EpochRisesAtMostOne(states: seq<State>, actions: seq<Action>, i: nat, j: nat, h: nat)
    requires IsRun(states, actions) && i < j < |states|
    requires actions[i] == EnterStore(h)
    requires forall m :: i < m < j ==> !Leaves(actions[m], h)
    ensures h < |states[j].handles| && states[j].handles[h].active
    ensures states[j].handles[h].announcedAt == states[i].epoch
    ensures states[j].epoch <= states[i].epoch + 1
    decreases j
  {
    hide Inv;
    hide Enabled;
    hide Apply;
    RunInv(states, actions, j - 1);
    RunInv(states, actions, j);
    if i + 1 < j {
      EpochRisesAtMostOne(states, actions, i, j - 1, h);
      SectionStays(states[j - 1], actions[j - 1], h);
    } else {
      SectionBegins(states[i], h);
    }
    ActiveEpoch(states[j], h);
  }

  lemma SectionBegins(s: State, h: nat)
    requires Shaped(s) && Enabled(s, EnterStore(h))
    ensures h < |Apply(s, EnterStore(h)).handles| && Apply(s, EnterStore(h)).handles[h].active
    ensures Apply(s, EnterStore(h)).handles[h].announcedAt == s.epoch
  {
  }

  lemma ActiveEpoch(s: State, h: nat)
    requires Inv(s) && h < |s.handles| && s.handles[h].active
    ensures s.epoch <= s.handles[h].announcedAt + 1
  {
    assert HandleOk(s, s.handles[h]);
  }

  // -------------------------------------------------------------------------
  // Conservation
  // -------------------------------------------------------------------------

  // How often a pointer occurs in each place.

  ghost function InList(l: seq<Node>, p: Ptr): nat {
    if l == [] then 0 else (if l[0].ptr == p then 1 else 0) + InList(l[1..], p)
  }

  lemma {:induction false} InConcat(l: seq<Node>, m: seq<Node>, p: Ptr)
    ensures InList(l + m, p) == InList(l, p) + InList(m, p)
  {
    if l == [] {
      assert l + m == m;
    } else {
      assert (l + m)[1..] == l[1..] + m;
      InConcat(l[1..], m, p);
    }
  }

  ghost function InOp(op: Op, p: Ptr): nat {
    match op
    case RetireBegun(q) => if q == p then 1 else 0
    case RetireLoaded(q, _) => if q == p then 1 else 0
    case Freeing(dying) => InList(dying, p)
    case _ => 0
  }

  ghost function InLists(lists: seq<seq<Node>>, p: Ptr): nat {
    if |lists| == 3 then InList(lists[0], p) + InList(lists[1], p) + InList(lists[2], p) else 0
  }

  ghost function InHandle(v: Handle, p: Ptr): nat {
    InLists(v.local, p) + InOp(v.op, p)
  }

  ghost function InHandles(hs: seq<Handle>, p: Ptr): nat {
    if hs == [] then 0 else InHandles(hs[..|hs| - 1], p) + InHandle(hs[|hs| - 1], p)
  }

  ghost function InCall(c: Call, p: Ptr): nat {
    if c.Splitting? then InList(c.todo, p) + InList(c.keep, p) else 0
  }

  ghost function InCalls(cs: seq<Call>, p: Ptr): nat {
    if cs == [] then 0 else InCalls(cs[..|cs| - 1], p) + InCall(cs[|cs| - 1], p)
  }

  ghost function InFreed(fs: seq<Freed>, p: Ptr): nat {
    if fs == [] then 0 else InFreed(fs[..|fs| - 1], p) + (if fs[|fs| - 1].ptr == p then 1 else 0)
  }

  /** Occurrences held by an operation, in a local or orphan list, in an orphan flush, and among the freed. */
  ghost function Occurrences(s: State, p: Ptr): nat {
    InHandles(s.handles, p) + InLists(s.orphans, p) + InCalls(s.calls, p) + InFreed(s.freed, p)
  }

  lemma {:induction false} HandlesUpdate(hs: seq<Handle>, h: nat, v: Handle, p: Ptr)
    requires h < |hs|
    ensures InHandles(hs[h := v], p) == InHandles(hs, p) - InHandle(hs[h], p) + InHandle(v, p)
  {
    hide InHandle;
    var n := |hs| - 1;
    if h == n {
      assert hs[h := v][..n] == hs[..n];
    } else {
      assert hs[h := v][..n] == hs[..n][h := v];
      HandlesUpdate(hs[..n], h, v, p);
    }
  }

  lemma {:induction false} CallsUpdate(cs: seq<Call>, k: nat, c: Call, p: Ptr)
    requires k < |cs|
    ensures InCalls(cs[k := c], p) == InCalls(cs, p) - InCall(cs[k], p) + InCall(c, p)
  {
    hide InCall;
    var n := |cs| - 1;
    if k == n {
      assert cs[k := c][..n] == cs[..n];
    } else {
      assert cs[k := c][..n] == cs[..n][k := c];
      CallsUpdate(cs[..n], k, c, p);
    }
  }

  lemma HandleAppended(hs: seq<Handle>, v: Handle, p: Ptr)
    ensures InHandles(hs + [v], p) == InHandles(hs, p) + InHandle(v, p)
  {
    assert (hs + [v])[..|hs|] == hs;
  }

  lemma CallAppended(cs: seq<Call>, c: Call, p: Ptr)
    ensures InCalls(cs + [c], p) == InCalls(cs, p) + InCall(c, p)
  {
    assert (cs + [c])[..|cs|] == cs;
  }

  lemma FreedAppended(fs: seq<Freed>, f: Freed, p: Ptr)
    ensures InFreed(fs + [f], p) == InFreed(fs, p) + if f.ptr == p then 1 else 0
  {
    assert (fs + [f])[..|fs|] == fs;
  }

  lemma InSpliced(local: seq<seq<Node>>, orphans: seq<seq<Node>>, p: Ptr)
    requires |local| == 3 && |orphans| == 3
    ensures InLists(Spliced(local, orphans), p) == InLists(local, p) + InLists(orphans, p)
  {
    InConcat(local[0], orphans[0], p);
    InConcat(local[1], orphans[1], p);
    InConcat(local[2], orphans[2], p);
  }

  predicate OnHandle(a: Action) {
    || a.Reuse? || a.Unregister? || a.EnterLoad? || a.EnterStore? || a.ExitClear? || a.ExitLoad?
    || a.RetireBegin? || a.RetireLoad? || a.RetirePush? || a.Detach? || a.FreeLocal?
  }

  predicate OnCall(a: Action) {
    || a.AdvanceHead? || a.ScanRegistered? || a.ScanActive? || a.AdvanceCas?
    || a.SyncDone? || a.OrphanDetach? || a.OrphanSplit? || a.OrphanAttach?
  }

  lemma InUpdated(lists: seq<seq<Node>>, slot: nat, l: seq<Node>, p: Ptr)
    requires |lists| == 3 && slot < 3
    ensures InLists(lists[slot := l], p) == InLists(lists, p) - InList(lists[slot], p) + InList(l, p)
  {
    hide InList;
  }

  lemma InCons(n: Node, l: seq<Node>, p: Ptr)
    ensures InList([n] + l, p) == (if n.ptr == p then 1 else 0) + InList(l, p)
  {
    assert ([n] + l)[1..] == l;
  }

  /** Occurrences in what an action of handle `h` can touch. */
  ghost function Around(s: State, h: nat, p: Ptr): nat
    requires h < |s.handles|
  {
    InHandle(s.handles[h], p) + InLists(s.orphans, p) + InFreed(s.freed, p)
  }

  lemma OrphanDelta(s: State, a: Action, p: Ptr)
    requires Shaped(s) && (a.Reuse? || a.Unregister?) && Enabled(s, a)
    requires !s.handles[a.h].registered ==> s.handles[a.h].op.Idle?
    ensures Around(Apply(s, a), a.h, p) == Around(s, a.h, p)
  {
    hide InList;
    hide InFreed;
    hide InLists;
    var v := s.handles[a.h];
    assert v in s.handles;
    InEmpty(p);
    InSpliced(v.local, s.orphans, p);
    InNoLists(p);
  }

  lemma PushDelta(s: State, a: Action, p: Ptr)
    requires Shaped(s) && (a.RetirePush? || a.Detach?) && Enabled(s, a)
    ensures Around(Apply(s, a), a.h, p) == Around(s, a.h, p)
  {
    hide InList;
    hide InFreed;
    hide InLists;
    var v := s.handles[a.h];
    assert v in s.handles;
    InEmpty(p);
    if a.RetirePush? {
      var slot := v.op.g % 3;
      InCons(Node(v.op.ptr, v.op.g), v.local[slot], p);
      InUpdated(v.local, slot, [Node(v.op.ptr, v.op.g)] + v.local[slot], p);
    } else {
      InUpdated(v.local, (v.op.g + 1) % 3, [], p);
    }
  }

  lemma FreeDelta(s: State, a: Action, p: Ptr)
    requires Shaped(s) && a.FreeLocal? && Enabled(s, a)
    ensures Around(Apply(s, a), a.h, p) == Around(s, a.h, p)
  {
    hide InList;
    hide InFreed;
    hide InLists;
    var v := s.handles[a.h];
    assert v in s.handles;
    InEmpty(p);
    if v.op.dying != [] {
      InCons(v.op.dying[0], v.op.dying[1..], p);
      assert v.op.dying == [v.op.dying[0]] + v.op.dying[1..];
      FreedAppended(s.freed, Freed(v.op.dying[0].ptr, v.op.dying[0].epoch, s.epoch), p);
    }
  }

  lemma HandleDelta(s: State, a: Action, p: Ptr)
    requires Shaped(s) && Enabled(s, a) && OnHandle(a)
    requires !s.handles[a.h].registered ==> s.handles[a.h].op.Idle?
    ensures Around(Apply(s, a), a.h, p) == Around(s, a.h, p) + if a.RetireBegin? && a.p == p then 1 else 0
  {
    if a.Reuse? || a.Unregister? {
      OrphanDelta(s, a, p);
    } else if a.RetirePush? || a.Detach? {
      PushDelta(s, a, p);
    } else if a.FreeLocal? {
      FreeDelta(s, a, p);
    } else {
      OtherDelta(s, a, p);
    }
  }

  lemma OtherDelta(s: State, a: Action, p: Ptr)
    requires Shaped(s) && Enabled(s, a) && OnHandle(a)
    requires !a.Reuse? && !a.Unregister? && !a.RetirePush? && !a.Detach? && !a.FreeLocal?
    ensures Around(Apply(s, a), a.h, p) == Around(s, a.h, p) + if a.RetireBegin? && a.p == p then 1 else 0
  {
    hide InList;
    hide InFreed;
    assert s.handles[a.h] in s.handles;
    InEmpty(p);
  }

  lemma InEmpty(p: Ptr)
    ensures InList([], p) == 0
  {
  }

  lemma InNoLists(p: Ptr)
    ensures InLists([[], [], []], p) == 0
  {
  }

  lemma HandleConserves(s: State, a: Action, p: Ptr)
    requires Inv(s) && Enabled(s, a) && OnHandle(a)
    ensures Occurrences(Apply(s, a), p) == Occurrences(s, p) + if a.RetireBegin? && a.p == p then 1 else 0
  {
    hide InHandle;
    hide InHandles;
    hide InLists;
    hide InCalls;
    hide InFreed;
    var s' := Apply(s, a);
    assert HandleOk(s, s.handles[a.h]);
    hide Inv;
    HandleDelta(s, a, p);
    HandlesUpdate(s.handles, a.h, s'.handles[a.h], p);
    assert s'.handles == s.handles[a.h := s'.handles[a.h]] && s'.calls == s.calls;
  }

  lemma CallDelta(s: State, a: Action, p: Ptr)
    requires Shaped(s) && Enabled(s, a) && OnCall(a)
    ensures InCall(Apply(s, a).calls[a.k], p) + InLists(Apply(s, a).orphans, p) + InFreed(Apply(s, a).freed, p)
            == InCall(s.calls[a.k], p) + InLists(s.orphans, p) + InFreed(s.freed, p)
  {
    hide InList;
    hide InLists;
    hide InFreed;
    var c := s.calls[a.k];
    assert c in s.calls;
    InEmpty(p);
    if a.OrphanDetach? {
      InUpdated(s.orphans, c.slot, [], p);
    } else if a.OrphanSplit? {
      assert c.todo == [c.todo[0]] + c.todo[1..];
      InCons(c.todo[0], c.todo[1..], p);
      InConcat(c.keep, [c.todo[0]], p);
      InCons(c.todo[0], [], p);
      assert [c.todo[0]] == [c.todo[0]] + [];
      FreedAppended(s.freed, Freed(c.todo[0].ptr, c.todo[0].epoch, s.epoch), p);
    } else if a.OrphanAttach? {
      InConcat(c.keep, s.orphans[c.slot], p);
      InUpdated(s.orphans, c.slot, c.keep + s.orphans[c.slot], p);
    }
  }

  lemma CallConserves(s: State, a: Action, p: Ptr)
    requires Inv(s) && Enabled(s, a) && OnCall(a)
    ensures Occurrences(Apply(s, a), p) == Occurrences(s, p)
  {
    hide HandleOk;
    hide CallOk;
    hide ListOk;
    hide InCall;
    hide InHandles;
    hide InLists;
    hide InCalls;
    hide InFreed;
    var s' := Apply(s, a);
    CallDelta(s, a, p);
    CallsUpdate(s.calls, a.k, s'.calls[a.k], p);
    assert s'.calls == s.calls[a.k := s'.calls[a.k]] && s'.handles == s.handles;
  }

  /** No action loses or duplicates a retired pointer. */
  lemma StepConserves(s: State, a: Action, p: Ptr)
    requires Inv(s) && Enabled(s, a)
    ensures Occurrences(Apply(s, a), p) == Occurrences(s, p) + if a.RetireBegin? && a.p == p then 1 else 0
  {
    hide Inv;
    if OnHandle(a) {
      hide Apply;
      hide Enabled;
      hide Occurrences;
      HandleConserves(s, a, p);
    } else if OnCall(a) {
      hide Apply;
      hide Enabled;
      hide Occurrences;
      CallConserves(s, a, p);
    } else {
      HandleAppended(s.handles, NEW_HANDLE, p);
      CallAppended(s.calls, AdvanceLoaded(s.epoch), p);
      CallAppended(s.calls, SyncWaiting(s.epoch + 3), p);
    }
  }

  lemma RetiredGrows(s: State, a: Action, p: Ptr)
    requires Inv(s) && Enabled(s, a)
    ensures p in Apply(s, a).retired <==> p in s.retired || (a.RetireBegin? && a.p == p)
    ensures a.RetireBegin? ==> a.p !in s.retired
  {
    hide HandleOk;
    hide CallOk;
    hide ListOk;
  }

  lemma NoneAtFirst(p: Ptr)
    ensures Occurrences(Init(), p) == 0 && p !in Init().retired
  {
    InNoLists(p);
  }

  /** In every reachable state each retired pointer is in exactly one place, or has been freed exactly once. */
  lemma {:induction false} Conservation(states: seq<State>, actions: seq<Action>, i: nat, p: Ptr)
    requires IsRun(states, actions) && i < |states|
    ensures Occurrences(states[i], p) == if p in states[i].retired then 1 else 0
    decreases i
  {
    hide Inv;
    hide Apply;
    hide Enabled;
    hide Occurrences;
    if i == 0 {
      NoneAtFirst(p);
    } else {
      RunInv(states, actions, i - 1);
      Conservation(states, actions, i - 1, p);
      StepConserves(states[i - 1], actions[i - 1], p);
      RetiredGrows(states[i - 1], actions[i - 1], p);
    }
  }

  // -------------------------------------------------------------------------
  // Destruction
  // -------------------------------------------------------------------------

  /** Nothing is running any more, as destroy demands. */
  predicate Quiescent(s: State) {
    && (forall v :: v in s.handles ==> v.op.Idle? && !v.active)
    && (forall c :: c in s.calls ==> c.Finished?)
  }

  function LocalNodes(hs: seq<Handle>): seq<Node> {
    if hs == [] then []
    else
      var v := hs[|hs| - 1];
      (if |v.local| == 3 then v.local[0] + v.local[1] + v.local[2] else []) + LocalNodes(hs[..|hs| - 1])
  }

  /** What destroy frees, in order: the local lists from the newest handle on, then the orphans. */
  function DestroyOrder(s: State): seq<Node>
    requires |s.orphans| == 3
  {
    LocalNodes(s.handles) + (s.orphans[0] + s.orphans[1] + s.orphans[2])
  }

  lemma InThree(lists: seq<seq<Node>>, p: Ptr)
    requires |lists| == 3
    ensures InList(lists[0] + lists[1] + lists[2], p) == InLists(lists, p)
  {
    InConcat(lists[0] + lists[1], lists[2], p);
    InConcat(lists[0], lists[1], p);
  }

  lemma {:induction false} InLocalNodes(hs: seq<Handle>, p: Ptr)
    requires forall v :: v in hs ==> v.op.Idle? && |v.local| == 3
    ensures InList(LocalNodes(hs), p) == InHandles(hs, p)
  {
    if hs != [] {
      var v, rest := hs[|hs| - 1], hs[..|hs| - 1];
      assert v in hs;
      InLocalNodes(rest, p);
      InThree(v.local, p);
      InConcat(v.local[0] + v.local[1] + v.local[2], LocalNodes(rest), p);
    }
  }

  lemma {:induction false} NoneInCalls(cs: seq<Call>, p: Ptr)
    requires forall c :: c in cs ==> c.Finished?
    ensures InCalls(cs, p) == 0
  {
    if cs != [] {
      assert cs[|cs| - 1] in cs;
      NoneInCalls(cs[..|cs| - 1], p);
    }
  }

  /** After destroy every retired pointer has been freed exactly once, and nothing else has. */
  lemma DestroyFreesTheRest(states: seq<State>, actions: seq<Action>, i: nat, p: Ptr)
    requires IsRun(states, actions) && i < |states| && Shaped(states[i]) && Quiescent(states[i])
    ensures InFreed(states[i].freed, p) + InList(DestroyOrder(states[i]), p) == if p in states[i].retired then 1 else 0
  {
    var s := states[i];
    Conservation(states, actions, i, p);
    InLocalNodes(s.handles, p);
    NoneInCalls(s.calls, p);
    InThree(s.orphans, p);
    InConcat(LocalNodes(s.handles), s.orphans[0] + s.orphans[1] + s.orphans[2], p);
  }
}
