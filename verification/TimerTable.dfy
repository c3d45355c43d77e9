/**
 The table that finds a timer by its identity: open addressing with linear probing. Removal leaves no marker behind; it
 moves later entries into the hole, if the hole is on their way.
 */
module TimerTable {
  import opened Basics
  import opened Ring

  type Id = nat

  const FIRST_CAPACITY := 64
  const MAX_CAPACITY := 0x4000_0000

  datatype Entry<N> = Vacant | Used(id: Id, node: N)

  function Home(hash: nat, n: nat): (h: nat)
    requires n > 0
    ensures h < n
  {
    hash % n
  }

  /** The way from h to j passes k. */
  predicate OnTheWay(h: nat, k: nat, j: nat, n: nat)
    requires h < n && k < n && j < n
  {
    Distance(h, k, n) <= Distance(h, j, n)
  }

  predicate Full<N>(t: seq<Entry<N>>, h: nat, j: nat)
    requires h < |t| && j < |t|
  {
    forall k :: 0 <= k < |t| && OnTheWay(h, k, j, |t|) ==> t[k].Used?
  }

  lemma OnTheWayToo(h: nat, k: nat, j: nat, n: nat, m: nat)
    requires h < n && k < n && j < n && m < n
    requires OnTheWay(h, k, j, n) && OnTheWay(k, m, j, n)
    ensures OnTheWay(h, m, j, n)
  {
  }

  /** The test of the removal loop: the hole is on the way of an entry. */
  predicate CanShift(natural: nat, curr: nat, next: nat) {
    if next > curr then natural <= curr || natural > next else natural <= curr && natural > next
  }

  lemma CanShiftMeans(natural: nat, curr: nat, next: nat, n: nat)
    requires natural < n && curr < n && next < n && curr != next
    ensures CanShift(natural, curr, next) <==> OnTheWay(natural, curr, next, n)
  {
  }

  class Table<N> {
    const hash: Id -> nat
    var entries: array<Entry<N>>
    var count: nat
    ghost var at: map<Id, nat>

    ghost predicate Indexed(t: seq<Entry<N>>, index: map<Id, nat>, dead: int) {
      && (forall i :: 0 <= i < |t| && i != dead && t[i].Used? ==> t[i].id in index && index[t[i].id] == i)
      && (forall id :: id in index ==>
            index[id] < |t| && index[id] != dead && t[index[id]].Used? && t[index[id]].id == id)
    }

    ghost predicate Reachable(t: seq<Entry<N>>) {
      forall i :: 0 <= i < |t| && t[i].Used? ==> Full(t, Home(hash(t[i].id), |t|), i)
    }

    /** All entries count except the one at `dead`, if that is an index. */
    ghost predicate Well(t: seq<Entry<N>>, index: map<Id, nat>, dead: int) {
      Indexed(t, index, dead) && Reachable(t)
    }

    ghost function Contents(t: seq<Entry<N>>, index: map<Id, nat>, dead: int): map<Id, N>
      requires Indexed(t, index, dead)
    {
      map id | id in index :: t[index[id]].node
    }

    lemma Path(t: seq<Entry<N>>, index: map<Id, nat>, dead: int, id: Id)
      requires Well(t, index, dead) && id in index
      ensures index[id] < |t| && t[index[id]].Used? && t[index[id]].id == id && index[id] != dead
      ensures Full(t, Home(hash(id), |t|), index[id])
    {
    }

    /** Probing for an identity from its home: passed slots are used by others. */
    ghost predicate Probed(t: seq<Entry<N>>, h: nat, idx: nat, id: Id)
      requires h < |t| && idx < |t|
    {
      forall k :: 0 <= k < |t| && Distance(h, k, |t|) < Distance(h, idx, |t|) ==> t[k].Used? && t[k].id != id
    }

    lemma ProbeNext(t: seq<Entry<N>>, h: nat, idx: nat, id: Id, free: nat)
      requires h < |t| && idx < |t| && free < |t| && (t[free].Vacant? || t[free].id == id) && Probed(t, h, idx, id)
      requires t[idx].Used? && t[idx].id != id
      ensures Probed(t, h, Next(idx, |t|), id)
      ensures Distance(Next(idx, |t|), free, |t|) < Distance(idx, free, |t|)
    {
      assert Distance(h, free, |t|) >= Distance(h, idx, |t|);
    }

    lemma ProbeMiss(t: seq<Entry<N>>, index: map<Id, nat>, h: nat, idx: nat, id: Id)
      requires Well(t, index, -1) && |t| > 0 && h == Home(hash(id), |t|) && idx < |t|
      requires Probed(t, h, idx, id) && t[idx].Vacant?
      ensures id !in index
    {
      if id in index {
        Path(t, index, -1, id);
      }
    }

    /** Where the probe for an identity has to stop: at its own slot, or at a free one. */
    lemma StopSlot(t: seq<Entry<N>>, index: map<Id, nat>, id: Id) returns (stop: nat)
      requires Well(t, index, -1) && (|index| < |t| || id in index)
      ensures stop < |t| && (t[stop].Vacant? || t[stop].id == id)
    {
      if id in index {
        stop := index[id];
      } else {
        stop := FreeSlot(t, index);
      }
    }

    lemma FreeSlot(t: seq<Entry<N>>, index: map<Id, nat>) returns (free: nat)
      requires Well(t, index, -1) && |index| < |t|
      ensures free < |t| && t[free].Vacant?
    {
      free := FreeIndex(index, |t|);
    }

    /** Finds the slot of an identity, or the free slot its probe ends in. */
    method Probe(t: array<Entry<N>>, id: Id, ghost index: map<Id, nat>) returns (idx: nat)
      requires Well(t[..], index, -1) && t.Length > 0 && (|index| < t.Length || id in index)
      ensures idx < t.Length && (t[idx].Used? <==> id in index)
      ensures id in index ==> t[idx].id == id && index[id] == idx
      ensures id !in index ==> Probed(t[..], Home(hash(id), t.Length), idx, id)
    {
      hide Well;
      hide Home;
      hide Probed;
      ghost var s := t[..];
      var n := t.Length;
      ghost var h := Home(hash(id), n);
      idx := Home(hash(id), n);
      ghost var stop := StopSlot(s, index, id);
      ProbeStart(s, h, id);
      while t[idx].Used?
        invariant idx < n && Probed(s, h, idx, id)
        decreases Distance(idx, stop, n)
      {
        if t[idx].id == id {
          UsedIndexed(s, index, idx);
          return;
        }
        ProbeNext(s, h, idx, id, stop);
        idx := Next(idx, n);
      }
      ProbeMiss(s, index, h, idx, id);
    }

    lemma ProbeStart(t: seq<Entry<N>>, h: nat, id: Id)
      requires h < |t|
      ensures Probed(t, h, h, id)
    {
    }

    lemma UsedIndexed(t: seq<Entry<N>>, index: map<Id, nat>, i: nat)
      requires Well(t, index, -1) && i < |t| && t[i].Used?
      ensures t[i].id in index && index[t[i].id] == i
    {
    }

    /** Filling the free slot a probe ended in. */
    lemma Fill(t: seq<Entry<N>>, index: map<Id, nat>, idx: nat, e: Entry<N>)
      requires Well(t, index, -1) && idx < |t| && t[idx].Vacant? && e.Used? && e.id !in index
      requires Probed(t, Home(hash(e.id), |t|), idx, e.id)
      ensures Well(t[idx := e], index[e.id := idx], -1)
      ensures Contents(t[idx := e], index[e.id := idx], -1) == Contents(t, index, -1)[e.id := e.node]
      ensures |index[e.id := idx]| == |index| + 1
    {
      hide Home;
      var after, index' := t[idx := e], index[e.id := idx];
      assert Indexed(after, index', -1);
      forall i | 0 <= i < |after| && after[i].Used?
        ensures Full(after, Home(hash(after[i].id), |after|), i)
      {
        if i == idx {
          SlotsBefore(t, Home(hash(e.id), |t|), idx, e.id);
        } else {
          assert Full(t, Home(hash(t[i].id), |t|), i);
        }
      }
    }

    lemma SlotsBefore(t: seq<Entry<N>>, h: nat, idx: nat, id: Id)
      requires h < |t| && idx < |t| && Probed(t, h, idx, id)
      ensures forall k :: 0 <= k < |t| && k != idx && OnTheWay(h, k, idx, |t|) ==> t[k].Used?
    {
    }

    /** The entries are in their places, and only the largest table may be full. */
    ghost predicate Sound()
      reads this, entries
    {
      && Well(entries[..], at, -1) && count == |at|
      && (entries.Length == 0 ==> count == 0)
      && (entries.Length > 0 ==> FIRST_CAPACITY <= entries.Length <= MAX_CAPACITY && IsPow2(entries.Length))
      && count <= entries.Length && (0 < entries.Length < MAX_CAPACITY ==> count < entries.Length)
    }

    /** There is room too: a slot is free, so that probes end. */
    ghost predicate Valid()
      reads this, entries
    {
      Sound() && (entries.Length > 0 ==> count < entries.Length)
    }

    ghost function Map(): map<Id, N>
      requires Sound()
      reads this, entries
    {
      Contents(entries[..], at, -1)
    }

    constructor (hash: Id -> nat)
      ensures Valid() && count == 0 && Map() == map[] && this.hash == hash && fresh(entries)
    {
      this.hash := hash;
      entries := new Entry<N>[0](_ => Vacant);
      count := 0;
      at := map[];
    }

    method Find(id: Id) returns (node: Option<N>)
      requires Sound() && (Valid() || id in Map())
      ensures node == if id in Map() then Some(Map()[id]) else None
    {
      hide Well;
      WellIndexed(entries[..], at, -1);
      if entries.Length == 0 || count == 0 {
        return None;
      }
      var idx := Probe(entries, id, at);
      return if entries[idx].Used? then Some(entries[idx].node) else None;
    }

    lemma WellIndexed(t: seq<Entry<N>>, index: map<Id, nat>, dead: int)
      requires Well(t, index, dead)
      ensures Indexed(t, index, dead)
    {
    }

    // ---------- growing ----------

    ghost function Part(t: seq<Entry<N>>, index: map<Id, nat>, n: nat): map<Id, N>
      requires Indexed(t, index, -1)
    {
      map id | id in index && index[id] < n :: t[index[id]].node
    }

    lemma PartMore(t: seq<Entry<N>>, index: map<Id, nat>, n: nat)
      requires Indexed(t, index, -1) && n < |t|
      ensures Part(t, index, n + 1) ==
        if t[n].Used? then Part(t, index, n)[t[n].id := t[n].node] else Part(t, index, n)
      ensures t[n].Used? ==> t[n].id !in Part(t, index, n)
    {
    }

    lemma PartSize(t: seq<Entry<N>>, index: map<Id, nat>, n: nat)
      requires Indexed(t, index, -1)
      ensures |Part(t, index, n)| <= |index|
      ensures n >= |t| ==> Part(t, index, n) == Contents(t, index, -1)
      ensures n == 0 ==> Part(t, index, n) == map[]
    {
      assert Part(t, index, n).Keys <= index.Keys;
      SubsetSize(Part(t, index, n).Keys, index.Keys);
    }

    lemma PartSmaller(t: seq<Entry<N>>, index: map<Id, nat>, n: nat)
      requires Indexed(t, index, -1) && n < |t| && t[n].Used?
      ensures |Part(t, index, n)| < |index|
    {
      var others := index.Keys - {t[n].id};
      assert Part(t, index, n).Keys <= others && |others| == |index| - 1;
      SubsetSize(Part(t, index, n).Keys, others);
    }

    lemma KeysOfContents(t: seq<Entry<N>>, index: map<Id, nat>)
      requires Indexed(t, index, -1)
      ensures Contents(t, index, -1).Keys == index.Keys && |Contents(t, index, -1)| == |index|
    {
      assert Contents(t, index, -1).Keys == index.Keys;
    }

    /** Copies every entry to an empty table, each to the first free slot from its home there. */
    method Rehash(from: array<Entry<N>>, to: array<Entry<N>>, ghost was: map<Id, nat>)
        returns (ghost index: map<Id, nat>)
      requires Well(from[..], was, -1) && |was| <= to.Length && from != to && Well(to[..], map[], -1)
      modifies to
      ensures Well(to[..], index, -1) && Contents(to[..], index, -1) == old(Contents(from[..], was, -1))
    {
      hide Well;
      hide Indexed;
      hide Part;
      hide Contents;
      hide Home;
      hide Probed;
      ghost var t := from[..];
      index := map[];
      WellIndexed(t, was, -1);
      WellIndexed(to[..], index, -1);
      KeysOfContents(to[..], index);
      PartSize(t, was, 0);
      assert Contents(to[..], index, -1) == map[];
      for i := 0 to from.Length
        invariant from[..] == t
        invariant Well(to[..], index, -1) && Indexed(to[..], index, -1)
        invariant Contents(to[..], index, -1) == Part(t, was, i)
      {
        PartMore(t, was, i);
        if from[i].Used? {
          PartSmaller(t, was, i);
          KeysOfContents(to[..], index);
          ghost var before := to[..];
          var idx := Probe(to, from[i].id, index);
          Fill(before, index, idx, from[i]);
          to[idx] := from[i];
          assert to[..] == before[idx := from[i]];
          index := index[from[i].id := idx];
          WellIndexed(to[..], index, -1);
        }
      }
      PartSize(t, was, from.Length);
    }

    lemma EmptyWell(t: seq<Entry<N>>)
      requires forall i :: 0 <= i < |t| ==> t[i].Vacant?
      ensures Well(t, map[], -1)
    {
    }

    lemma CapacityPow2(n: nat)
      ensures IsPow2(FIRST_CAPACITY) && IsPow2(MAX_CAPACITY) && (IsPow2(n) ==> IsPow2(n * 2))
    {
      assert FIRST_CAPACITY == Pow2(6);
      assert Pow2(12) == 0x1000 && Pow2(18) == 0x4_0000 && Pow2(24) == 0x100_0000;
      assert MAX_CAPACITY == Pow2(30);
      if IsPow2(n) {
        DoublePow2(n);
      }
    }

    /** Grows at seven tenths full: 64 slots at first, then twice as many, up to 2^30. */
    method Grow(memory: bool) returns (ok: bool)
      requires Sound() && (entries.Length == 0 || count * 10 >= entries.Length * 7)
      modifies this`entries, this`at
      ensures Sound() && Map() == old(Map()) && (ok <==> memory) && (Valid() <==> old(Valid()))
      ensures if ok then fresh(entries) && entries.Length > 0 else entries == old(entries)
      ensures ok && entries.Length < MAX_CAPACITY ==> count * 10 < entries.Length * 7
    {
      hide Well;
      hide Indexed;
      hide Contents;
      var capacity :=
        if entries.Length == 0 then FIRST_CAPACITY
        else if entries.Length >= MAX_CAPACITY then entries.Length
        else if entries.Length * 2 > MAX_CAPACITY then MAX_CAPACITY
        else entries.Length * 2;
      if !memory {
        return false;
      }
      CapacityPow2(entries.Length);
      var slots := new Entry<N>[capacity](_ => Vacant);
      EmptyWell(slots[..]);
      ghost var index := Rehash(entries, slots, at);
      WellIndexed(entries[..], at, -1);
      WellIndexed(slots[..], index, -1);
      KeysOfContents(slots[..], index);
      KeysOfContents(entries[..], at);
      entries := slots;
      at := index;
      return true;
    }

    /**
     Files a timer under its identity, replacing what was there; fails without memory. Only the timer number 2^30
     takes the last free slot.
     */
    method Insert(id: Id, node: N, memory: bool) returns (ok: bool)
      requires Sound() && (Valid() || id in Map())
      modifies this, entries
      ensures Sound() && (memory ==> ok) && (entries == old(entries) || fresh(entries))
      ensures Valid() <==> old(Valid()) && (!ok || id in old(Map()) || old(count) + 1 < MAX_CAPACITY)
      ensures count == if ok && id !in old(Map()) then old(count) + 1 else old(count)
      ensures Map() == if ok then old(Map())[id := node] else old(Map())
    {
      hide Well;
      hide Indexed;
      hide Home;
      hide Probed;
      if entries.Length == 0 || count * 10 >= entries.Length * 7 {
        var grown := Grow(memory);
        if !grown {
          return false;
        }
      }
      var idx := Probe(entries, id, at);
      ghost var before := entries[..];
      WellIndexed(before, at, -1);
      if entries[idx].Used? {
        Overwrite(before, at, idx, node);
        entries[idx] := entries[idx].(node := node);
        assert entries[..] == before[idx := before[idx].(node := node)];
      } else {
        Fill(before, at, idx, Used(id, node));
        entries[idx] := Used(id, node);
        assert entries[..] == before[idx := Used(id, node)];
        at := at[id := idx];
        count := count + 1;
      }
      return true;
    }

    lemma Overwrite(t: seq<Entry<N>>, index: map<Id, nat>, i: nat, node: N)
      requires Well(t, index, -1) && i < |t| && t[i].Used?
      ensures
        var after := t[i := t[i].(node := node)];
        Well(after, index, -1) && Contents(after, index, -1) == Contents(t, index, -1)[t[i].id := node]
    {
      hide Home;
      var after := t[i := t[i].(node := node)];
      forall j | 0 <= j < |t| && after[j].Used?
        ensures Full(after, Home(hash(after[j].id), |t|), j)
      {
        assert Full(t, Home(hash(t[j].id), |t|), j);
      }
    }

    /** Without a free slot every slot is used; the probe for an identity that is not there never ends. */
    lemma FullNeverEnds(id: Id, i: nat)
      requires Sound() && count == entries.Length && i < entries.Length
      ensures entries[i].Used? && (id !in Map() ==> entries[i].id != id)
    {
      hide Home;
      hide Full;
      assert OneToOne(at);
      NoFreeIndex(at, entries.Length, i);
    }

    /** The removal loop after so many turns: where the hole and the scan are, and what the slots hold. */
    function Scan(t: seq<Entry<N>>, curr: nat, next: nat, turns: nat): (r: (seq<Entry<N>>, nat, nat))
      requires curr < |t| && next < |t| && forall i :: 0 <= i < |t| ==> t[i].Used?
      ensures |r.0| == |t| && r.1 < |t| && r.2 < |t| && forall i :: 0 <= i < |t| ==> r.0[i].Used?
      decreases turns
    {
      if turns == 0 then (t, curr, next)
      else if CanShift(Home(hash(t[next].id), |t|), curr, next) then
        Scan(t[curr := t[next]], next, Next(next, |t|), turns - 1)
      else Scan(t, curr, Next(next, |t|), turns - 1)
    }

    /** Nor does the removal of an identity that is there: after any number of turns its scan is at a used slot. */
    lemma RemovalNeverEnds(id: Id, turns: nat)
      requires Sound() && count == entries.Length && id in Map()
      ensures at[id] < entries.Length && forall i :: 0 <= i < entries.Length ==> entries[i].Used?
      ensures var (slots, curr, next) := Scan(entries[..], at[id], Next(at[id], entries.Length), turns);
        slots[next].Used?
    {
      hide Home;
      hide Full;
      forall i | 0 <= i < entries.Length
        ensures entries[i].Used?
      {
        FullNeverEnds(id, i);
      }
    }

    // ---------- removing ----------

    /** The hole is not on the way of any entry between it and the scan position. */
    ghost predicate Scanned(t: seq<Entry<N>>, curr: nat, next: nat)
      requires curr < |t| && next < |t|
    {
      forall j :: 0 <= j < |t| && t[j].Used? && 0 < Distance(curr, j, |t|) < Distance(curr, next, |t|) ==>
        !OnTheWay(Home(hash(t[j].id), |t|), curr, j, |t|)
    }

    lemma Kill(t: seq<Entry<N>>, index: map<Id, nat>, i: nat)
      requires Well(t, index, -1) && i < |t| && t[i].Used?
      ensures Well(t, index - {t[i].id}, i)
      ensures Contents(t, index - {t[i].id}, i) == Contents(t, index, -1) - {t[i].id}
    {
      hide Reachable;
    }

    lemma Shift(t: seq<Entry<N>>, index: map<Id, nat>, curr: nat, next: nat)
      requires curr < |t| && next < |t| && curr != next && Well(t, index, curr) && t[next].Used?
      requires t[curr].Used? && OnTheWay(Home(hash(t[next].id), |t|), curr, next, |t|)
      ensures t[next].id in index
      ensures Well(t[curr := t[next]], index[t[next].id := curr], next)
      ensures Contents(t[curr := t[next]], index[t[next].id := curr], next) == Contents(t, index, curr)
    {
      hide Home;
      hide Distance;
      var after, index' := t[curr := t[next]], index[t[next].id := curr];
      assert Indexed(after, index', next);
      forall i | 0 <= i < |after| && after[i].Used?
        ensures Full(after, Home(hash(after[i].id), |after|), i)
      {
        var from := if i == curr then next else i;
        assert Full(t, Home(hash(t[from].id), |t|), from);
      }
    }

    lemma Vacate(t: seq<Entry<N>>, index: map<Id, nat>, curr: nat, next: nat)
      requires curr < |t| && next < |t| && Well(t, index, curr) && t[curr].Used? && t[next].Vacant?
      requires Scanned(t, curr, next)
      ensures Well(t[curr := Vacant], index, -1)
      ensures Contents(t[curr := Vacant], index, -1) == Contents(t, index, curr)
    {
      hide Home;
      var after := t[curr := Vacant];
      assert Indexed(after, index, -1);
      forall i | 0 <= i < |after| && after[i].Used?
        ensures Full(after, Home(hash(after[i].id), |after|), i)
      {
        var h := Home(hash(t[i].id), |t|);
        assert Full(t, h, i);
        if OnTheWay(h, curr, i, |t|) {
          NotPassed(t, h, curr, i, next);
        }
      }
    }

    /** An entry whose way passes the hole lies in front of the first free slot after the hole. */
    lemma NotPassed(t: seq<Entry<N>>, h: nat, curr: nat, i: nat, next: nat)
      requires h < |t| && curr < |t| && i < |t| && next < |t| && Full(t, h, i) && t[next].Vacant?
      requires OnTheWay(h, curr, i, |t|) && i != curr
      ensures 0 < Distance(curr, i, |t|) < Distance(curr, next, |t|)
    {
      if OnTheWay(curr, next, i, |t|) {
        OnTheWayToo(h, curr, i, |t|, next);
      }
    }

    lemma ScanStart(t: seq<Entry<N>>, curr: nat)
      requires curr < |t|
      ensures Scanned(t, curr, Next(curr, |t|))
    {
    }

    lemma OneAhead(curr: nat, free: nat, n: nat)
      requires curr < n && free < n && curr != free
      ensures Next(curr, n) != curr && Distance(curr, Next(curr, n), n) <= Distance(curr, free, n)
    {
    }

    lemma ScanNext(t: seq<Entry<N>>, curr: nat, next: nat, free: nat)
      requires curr < |t| && next < |t| && free < |t| && t[free].Vacant? && t[next].Used? && curr != next
      requires Scanned(t, curr, next) && !OnTheWay(Home(hash(t[next].id), |t|), curr, next, |t|)
      requires Distance(curr, next, |t|) <= Distance(curr, free, |t|)
      ensures Scanned(t, curr, Next(next, |t|)) && Next(next, |t|) != curr
      ensures Distance(curr, Next(next, |t|), |t|) <= Distance(curr, free, |t|)
    {
      hide Home;
    }

    /** Takes the entry at idx out and closes the hole. */
    method CloseHole(a: array<Entry<N>>, idx: nat, ghost index: map<Id, nat>) returns (ghost index': map<Id, nat>)
      requires Well(a[..], index, -1) && |index| < a.Length && idx < a.Length && a[idx].Used?
      modifies a
      ensures Well(a[..], index', -1) && |index'| == |index| - 1
      ensures Contents(a[..], index', -1) == old(Contents(a[..], index, -1) - {a[idx].id})
    {
      hide Well;
      hide Indexed;
      hide Contents;
      hide Home;
      hide Scanned;
      hide OnTheWay;
      hide Distance;
      hide Ring.Next;
      var n := a.Length;
      WellIndexed(a[..], index, -1);
      ghost var id := a[idx].id;
      ghost var target := Contents(a[..], index, -1) - {id};
      ghost var free := FreeSlot(a[..], index);
      UsedIndexed(a[..], index, idx);
      Kill(a[..], index, idx);
      index' := index - {id};
      assert |index'| == |index| - 1 by { assert index'.Keys == index.Keys - {id}; }
      var curr: nat := idx;
      var next: nat := Next(curr, n);
      ScanStart(a[..], curr);
      OneAhead(curr, free, n);
      WellIndexed(a[..], index', curr);
      while a[next].Used?
        invariant curr < n && next < n && free < n && a[free].Vacant? && a[curr].Used? && curr != next
        invariant Well(a[..], index', curr) && Indexed(a[..], index', curr) && |index'| == |index| - 1
        invariant Contents(a[..], index', curr) == target
        invariant Scanned(a[..], curr, next) && Distance(curr, next, n) <= Distance(curr, free, n)
        decreases Distance(next, free, n)
      {
        ghost var before, was := a[..], index';
        var natural := Home(hash(a[next].id), n);
        CanShiftMeans(natural, curr, next, n);
        if CanShift(natural, curr, next) {
          Shift(before, was, curr, next);
          index' := index'[a[next].id := curr];
          assert |index'| == |was| by { assert index'.Keys == was.Keys; }
          a[curr] := a[next];
          assert a[..] == before[curr := before[next]];
          curr := next;
          ScanStart(a[..], curr);
          OneAhead(curr, free, n);
          WellIndexed(a[..], index', curr);
        } else {
          ScanNext(before, curr, next, free);
        }
        DistanceNext(next, free, n);
        next := Next(next, n);
      }
      Vacate(a[..], index', curr, next);
      ghost var before := a[..];
      a[curr] := Vacant;
      assert a[..] == before[curr := Vacant];
      WellIndexed(a[..], index', -1);
    }

    method Remove(id: Id)
      requires Valid()
      modifies this`count, this`at, entries
      ensures Valid() && Map() == old(Map()) - {id}
    {
      hide Well;
      hide Indexed;
      WellIndexed(entries[..], at, -1);
      if entries.Length == 0 || count == 0 {
        return;
      }
      var idx := Probe(entries, id, at);
      if entries[idx].Used? {
        at := CloseHole(entries, idx, at);
        count := count - 1;
        WellIndexed(entries[..], at, -1);
      }
    }
  }

  /** A table that is full, made by inserting timers: the two lemmas about full tables speak of something real. */
  method FillUp(hash: Id -> nat) returns (t: Table<nat>)
    ensures t.hash == hash && t.Sound() && t.count == t.entries.Length == MAX_CAPACITY
    ensures forall id :: id in t.Map() ==> 1 <= id <= MAX_CAPACITY
  {
    t := new Table(hash);
    for i := 0 to MAX_CAPACITY
      invariant fresh(t) && fresh(t.entries) && t.hash == hash && t.Sound() && t.count == i
      invariant t.Valid() <==> i < MAX_CAPACITY
      invariant forall id :: id in t.Map() ==> 1 <= id <= i
    {
      hide t.Well;
      hide t.Contents;
      var ok := t.Insert(i + 1, i, true);
    }
  }
}
