/**
 The Robin Hood hash map. Every entry records how far it is from its home slot (`psl`); an insertion takes a
 slot from any entry that is closer to home than the entry being placed.
 */
module RobinHood {
  import opened Basics
  import opened Ring

  datatype Cell<K, V> = Empty | Entry(key: K, value: V, hash: nat, psl: nat)

  /** Next to each other, psl grows by at most one, and an entry away from home has an entry in front of it. */
  predicate Follows<K, V>(front: Cell<K, V>, cell: Cell<K, V>) {
    cell.Entry? && cell.psl > 0 ==> front.Entry? && cell.psl <= front.psl + 1
  }

  predicate Shape<K, V>(cells: seq<Cell<K, V>>) {
    forall i :: 0 <= i < |cells| ==> Follows(cells[i], cells[Next(i, |cells|)])
  }

  /** Each entry is psl steps behind its home. */
  predicate Homed<K, V>(cells: seq<Cell<K, V>>) {
    forall i :: 0 <= i < |cells| && cells[i].Entry? ==> InHome(cells, i, cells[i])
  }

  /** The slot a hash starts from; masking with a capacity that is a power of two. */
  function Home(hash: nat, n: nat): (h: nat)
    requires n > 0
    ensures h < n
  {
    hash % n
  }

  predicate InHome<K, V>(cells: seq<Cell<K, V>>, i: nat, c: Cell<K, V>)
    requires i < |cells| && c.Entry?
  {
    Steps(Home(c.hash, |cells|), c.psl, |cells|) == i
  }

  /** `at` says where each key is. */
  predicate Indexed<K, V>(cells: seq<Cell<K, V>>, at: map<K, nat>) {
    && (forall i :: 0 <= i < |cells| && cells[i].Entry? ==> cells[i].key in at && at[cells[i].key] == i)
    && (forall k :: k in at ==> at[k] < |cells| && cells[at[k]].Entry? && cells[at[k]].key == k)
  }

  function Contents<K, V>(cells: seq<Cell<K, V>>, at: map<K, nat>): map<K, V>
    requires Indexed(cells, at)
  {
    map k | k in at :: cells[at[k]].value
  }

  /** Every slot between a key's home and the key holds an entry at least as far from its own home. */
  lemma {:induction false} PathFull<K, V>(cells: seq<Cell<K, V>>, h: nat, p: nat, d: nat)
    requires Shape(cells) && h < |cells| && d <= p
    requires cells[Steps(h, p, |cells|)].Entry? && cells[Steps(h, p, |cells|)].psl >= p
    ensures cells[Steps(h, d, |cells|)].Entry? && cells[Steps(h, d, |cells|)].psl >= d
    decreases p
  {
    if d < p {
      var i := Steps(h, p - 1, |cells|);
      assert Follows(cells[i], cells[Next(i, |cells|)]);
      PathFull(cells, h, p - 1, d);
    }
  }

  lemma NextInjective(i: nat, j: nat, n: nat)
    requires i < n && j < n && Next(i, n) == Next(j, n)
    ensures i == j
  {
  }

  /** Putting an entry into a free slot, or over one that is closer to home, keeps the shape. */
  lemma PlaceShape<K, V>(cells: seq<Cell<K, V>>, i: nat, e: Cell<K, V>)
    requires Shape(cells) && i < |cells| && e.Entry? && Follows(cells[Prev(i, |cells|)], e)
    requires cells[i].Entry? ==> cells[i].psl < e.psl
    ensures Shape(cells[i := e])
  {
    var after := cells[i := e];
    forall j | 0 <= j < |after|
      ensures Follows(after[j], after[Next(j, |after|)])
    {
      assert Follows(cells[j], cells[Next(j, |cells|)]);
      if Next(j, |cells|) == i {
        NextInjective(j, Prev(i, |cells|), |cells|);
      }
    }
  }

  /** Moving the next entry one step towards its home keeps the shape. */
  lemma PullShape<K, V>(cells: seq<Cell<K, V>>, i: nat)
    requires Shape(cells) && i < |cells| && cells[i].Entry?
    requires cells[Next(i, |cells|)].Entry? && cells[Next(i, |cells|)].psl > 0
    ensures
      var e := cells[Next(i, |cells|)];
      Shape(cells[i := e.(psl := e.psl - 1)])
  {
    var n := |cells|;
    var e := cells[Next(i, n)];
    var after := cells[i := e.(psl := e.psl - 1)];
    assert Follows(cells[i], cells[Next(i, n)]);
    forall j | 0 <= j < n
      ensures Follows(after[j], after[Next(j, n)])
    {
      assert Follows(cells[j], cells[Next(j, n)]);
    }
  }

  lemma PullHomed<K, V>(cells: seq<Cell<K, V>>, i: nat)
    requires Homed(cells) && i < |cells|
    requires cells[Next(i, |cells|)].Entry? && cells[Next(i, |cells|)].psl > 0
    ensures
      var e := cells[Next(i, |cells|)];
      Homed(cells[i := e.(psl := e.psl - 1)])
  {
    hide Home;
    var n := |cells|;
    var e := cells[Next(i, n)];
    var after := cells[i := e.(psl := e.psl - 1)];
    forall j | 0 <= j < n && after[j].Entry?
      ensures InHome(after, j, after[j])
    {
      if j == i {
        assert InHome(cells, Next(i, n), e);
        NextInjective(i, Steps(Home(e.hash, n), e.psl - 1, n), n);
      } else {
        assert InHome(cells, j, cells[j]);
      }
    }
  }

  lemma ClearShape<K, V>(cells: seq<Cell<K, V>>, i: nat)
    requires Shape(cells) && i < |cells|
    requires cells[Next(i, |cells|)].Empty? || cells[Next(i, |cells|)].psl == 0
    ensures Shape(cells[i := Empty])
  {
    var after := cells[i := Empty];
    forall j | 0 <= j < |after|
      ensures Follows(after[j], after[Next(j, |after|)])
    {
      assert Follows(cells[j], cells[Next(j, |cells|)]);
      if j == i && Next(i, |cells|) != i {
        assert after[Next(j, |after|)] == cells[Next(i, |cells|)];
      }
    }
  }

  class HashMap<K(==, !new), V> {
    const hash: K -> nat
    var cells: array<Cell<K, V>>
    var size: nat
    ghost var at: map<K, nat>

    ghost predicate Well(c: seq<Cell<K, V>>, index: map<K, nat>) {
      && Shape(c) && Homed(c) && Indexed(c, index)
      && forall i :: 0 <= i < |c| && c[i].Entry? ==> c[i].hash == hash(c[i].key)
    }

    ghost predicate Valid()
      reads this, cells
    {
      && Well(cells[..], at) && size == |at|
      && (cells.Length == 0 || (16 <= cells.Length && IsPow2(cells.Length) && 4 * size <= 3 * cells.Length))
    }

    ghost function Map(): map<K, V>
      requires Valid()
      reads this, cells
    {
      Contents(cells[..], at)
    }

    constructor (hash: K -> nat)
      ensures Valid() && Map() == map[] && this.hash == hash && fresh(cells)
    {
      this.hash := hash;
      cells := new Cell<K, V>[0](_ => Empty);
      size := 0;
      at := map[];
    }

    /** Finds the slot of a key; the early exit at an entry closer to home loses no key. */
    method FindSlot(key: K) returns (found: bool, idx: nat)
      requires Valid()
      ensures found <==> key in Map()
      ensures found ==> idx < cells.Length && cells[idx].Entry? && cells[idx].key == key && at[key] == idx
    {
      hide Well;
      hide Steps;
      hide Home;
      hide Indexed;
      ghost var c := cells[..];
      WellIndexed(c, at);
      if cells.Length == 0 || size == 0 {
        NoneIndexed(c, at, key);
        return false, 0;
      }
      var n := cells.Length;
      var h := Home(hash(key), n);
      idx := h;
      var psl := 0;
      ghost var free := FreeSlot(c, at);
      StepsZero(h, n);
      while true
        invariant idx < n && idx == Steps(h, psl, n)
        invariant forall d :: 0 <= d < psl ==> Other(c[Steps(h, d, n)], key)
        decreases Distance(idx, free, n)
      {
        if cells[idx].Empty? || cells[idx].psl < psl {
          Missing(c, at, key, h, psl);
          return false, 0;
        }
        WellCell(c, at, idx);
        if cells[idx].hash == hash(key) && cells[idx].key == key {
          return true, idx;
        }
        DistanceNext(idx, free, n);
        StepsMore(h, psl, n);
        idx := Next(idx, n);
        psl := psl + 1;
      }
    }

    lemma FreeSlot(c: seq<Cell<K, V>>, index: map<K, nat>) returns (free: nat)
      requires Well(c, index) && |index| < |c|
      ensures free < |c| && c[free].Empty?
    {
      free := FreeIndex(index, |c|);
    }

    lemma WellCell(c: seq<Cell<K, V>>, index: map<K, nat>, i: nat)
      requires Well(c, index) && i < |c| && c[i].Entry?
      ensures c[i].hash == hash(c[i].key) && c[i].key in index && index[c[i].key] == i && InHome(c, i, c[i])
    {
    }

    lemma NoneIndexed(c: seq<Cell<K, V>>, index: map<K, nat>, key: K)
      requires Well(c, index) && (|c| == 0 || |index| == 0)
      ensures key !in index
    {
    }

    lemma WellIndexed(c: seq<Cell<K, V>>, index: map<K, nat>)
      requires Well(c, index)
      ensures Indexed(c, index)
    {
    }

    lemma Missing(c: seq<Cell<K, V>>, index: map<K, nat>, key: K, h: nat, psl: nat)
      requires Well(c, index) && h < |c| && h == Home(hash(key), |c|)
      requires forall d :: 0 <= d < psl ==> Other(c[Steps(h, d, |c|)], key)
      requires var i := Steps(h, psl, |c|); c[i].Empty? || c[i].psl < psl
      ensures key !in index
    {
      if key in index {
        var e := c[index[key]];
        assert InHome(c, index[key], e);
        if e.psl >= psl {
          PathFull(c, h, e.psl, psl);
        }
      }
    }

    /**
     The entry can be placed at i: it is at its distance from home, and the slot before it is far enough from home.
     */
    ghost predicate Carried(c: seq<Cell<K, V>>, index: map<K, nat>, i: nat, e: Cell<K, V>) {
      i < |c| && e.Entry? && e.hash == hash(e.key) && e.key !in index && InHome(c, i, e) && Follows(c[Prev(i, |c|)], e)
    }

    /** Where the keys are after e took slot i. */
    ghost function Placed(c: seq<Cell<K, V>>, index: map<K, nat>, i: nat, e: Cell<K, V>): map<K, nat>
      requires i < |c| && e.Entry?
    {
      (if c[i].Entry? then index - {c[i].key} else index)[e.key := i]
    }

    lemma Place(c: seq<Cell<K, V>>, index: map<K, nat>, i: nat, e: Cell<K, V>)
      requires Well(c, index) && Carried(c, index, i, e) && (c[i].Entry? ==> c[i].psl < e.psl)
      ensures Well(c[i := e], Placed(c, index, i, e))
    {
      hide Shape;
      hide Steps;
      hide Home;
      hide Follows;
      PlaceShape(c, i, e);
      var after := c[i := e];
      forall j | 0 <= j < |after| && after[j].Entry?
        ensures InHome(after, j, after[j])
      {
        assert j != i ==> InHome(c, j, c[j]);
      }
    }

    lemma PlacedContents(c: seq<Cell<K, V>>, index: map<K, nat>, i: nat, e: Cell<K, V>)
      requires Indexed(c, index) && i < |c| && e.Entry? && e.key !in index
      requires Indexed(c[i := e], Placed(c, index, i, e))
      ensures c[i].Empty? ==>
        Contents(c[i := e], Placed(c, index, i, e)) == Contents(c, index)[e.key := e.value]
      ensures c[i].Entry? ==>
        Contents(c[i := e], Placed(c, index, i, e))[c[i].key := c[i].value] == Contents(c, index)[e.key := e.value]
    {
      hide Indexed;
      if c[i].Entry? {
        KeyIndexed(c, index, i);
      }
      forall k | k in index
        ensures index[k] < |c| && c[index[k]].Entry? && c[index[k]].key == k
      {
        IndexedKey(c, index, k);
      }
      var stored := Contents(c[i := e], Placed(c, index, i, e));
      var target := Contents(c, index)[e.key := e.value];
      if c[i].Entry? {
        assert stored[c[i].key := c[i].value] == target;
      } else {
        assert stored == target;
      }
    }

    lemma PlacedSize(c: seq<Cell<K, V>>, index: map<K, nat>, i: nat, e: Cell<K, V>)
      requires Indexed(c, index) && i < |c| && e.Entry? && e.key !in index
      ensures |Placed(c, index, i, e)| == |index| + (if c[i].Empty? then 1 else 0)
    {
      var index' := Placed(c, index, i, e);
      if c[i].Entry? {
        assert index'.Keys == index.Keys - {c[i].key} + {e.key};
      } else {
        assert index'.Keys == index.Keys + {e.key};
      }
    }

    lemma KeyIndexed(c: seq<Cell<K, V>>, index: map<K, nat>, i: nat)
      requires Indexed(c, index) && i < |c| && c[i].Entry?
      ensures c[i].key in index && index[c[i].key] == i
    {
    }

    lemma IndexedKey(c: seq<Cell<K, V>>, index: map<K, nat>, k: K)
      requires Indexed(c, index) && k in index
      ensures index[k] < |c| && c[index[k]].Entry? && c[index[k]].key == k
    {
    }

    /** What is carried after the slot was passed, with its contents taken if they were closer to home. */
    lemma CarryOn(c: seq<Cell<K, V>>, index: map<K, nat>, i: nat, e: Cell<K, V>)
      requires Well(c, index) && Carried(c, index, i, e) && c[i].Entry? && c[i].psl >= e.psl
      ensures Carried(c, index, Next(i, |c|), e.(psl := e.psl + 1))
    {
      PrevOfNext(i, |c|);
    }

    lemma CarryTaken(c: seq<Cell<K, V>>, index: map<K, nat>, i: nat, e: Cell<K, V>)
      requires Well(c, index) && Carried(c, index, i, e) && c[i].Entry? && c[i].psl < e.psl
      ensures Carried(c[i := e], Placed(c, index, i, e), Next(i, |c|), c[i].(psl := c[i].psl + 1))
    {
      hide Well;
      WellCell(c, index, i);
      PrevOfNext(i, |c|);
    }

    /** Places an entry with a new key, displacing entries that are closer to home. */
    method InsertEntry(a: array<Cell<K, V>>, entry: Cell<K, V>, ghost index: map<K, nat>)
        returns (ghost index': map<K, nat>)
      requires Well(a[..], index) && |index| < a.Length && entry.Entry? && entry.hash == hash(entry.key)
      requires entry.key !in index
      modifies a
      ensures Well(a[..], index') && |index'| == |index| + 1
      ensures Contents(a[..], index') == old(Contents(a[..], index))[entry.key := entry.value]
    {
      hide Well;
      hide Steps;
      hide Home;
      hide Indexed;
      hide Follows;
      var n := a.Length;
      var idx := Home(entry.hash, n);
      var curr := entry.(psl := 0);
      index' := index;
      WellIndexed(a[..], index);
      ghost var target := Contents(a[..], index)[entry.key := entry.value];
      ghost var free := FreeSlot(a[..], index);
      CarryStart(a[..], index, curr);
      while true
        invariant Well(a[..], index') && Indexed(a[..], index') && Carried(a[..], index', idx, curr)
        invariant |index'| == |index|
        invariant Contents(a[..], index')[curr.key := curr.value] == target
        invariant free < n && a[free].Empty?
        decreases Distance(idx, free, n)
      {
        ghost var before, was := a[..], index';
        if a[idx].Empty? {
          Place(before, was, idx, curr);
          a[idx] := curr;
          assert a[..] == before[idx := curr];
          index' := Placed(before, was, idx, curr);
          WellIndexed(a[..], index');
          PlacedContents(before, was, idx, curr);
          PlacedSize(before, was, idx, curr);
          return;
        }
        if a[idx].psl < curr.psl {
          Place(before, was, idx, curr);
          CarryTaken(before, was, idx, curr);
          var taken := a[idx];
          a[idx] := curr;
          assert a[..] == before[idx := curr];
          index' := Placed(before, was, idx, curr);
          WellIndexed(a[..], index');
          PlacedContents(before, was, idx, curr);
          PlacedSize(before, was, idx, curr);
          curr := taken;
        } else {
          CarryOn(before, was, idx, curr);
        }
        DistanceNext(idx, free, n);
        idx := Next(idx, n);
        curr := curr.(psl := curr.psl + 1);
      }
    }

    /** All is well except that the entry at `dead` no longer counts. */
    ghost predicate WellBut(c: seq<Cell<K, V>>, index: map<K, nat>, dead: nat) {
      && Shape(c) && Homed(c) && dead < |c| && c[dead].Entry?
      && (forall i :: 0 <= i < |c| && c[i].Entry? ==> c[i].hash == hash(c[i].key))
      && (forall i :: 0 <= i < |c| && i != dead && c[i].Entry? ==> c[i].key in index && index[c[i].key] == i)
      && (forall k :: k in index ==> index[k] < |c| && index[k] != dead && c[index[k]].Entry? && c[index[k]].key == k)
    }

    ghost function ContentsBut(c: seq<Cell<K, V>>, index: map<K, nat>, dead: nat): map<K, V>
      requires WellBut(c, index, dead)
    {
      map k | k in index :: c[index[k]].value
    }

    lemma Kill(c: seq<Cell<K, V>>, index: map<K, nat>, i: nat)
      requires Well(c, index) && i < |c| && c[i].Entry?
      ensures WellBut(c, index - {c[i].key}, i)
      ensures ContentsBut(c, index - {c[i].key}, i) == Contents(c, index) - {c[i].key}
    {
      hide Shape;
      hide Homed;
    }

    lemma Pull(c: seq<Cell<K, V>>, index: map<K, nat>, i: nat)
      requires WellBut(c, index, i) && c[Next(i, |c|)].Entry? && c[Next(i, |c|)].psl > 0 && Next(i, |c|) != i
      ensures
        var next := Next(i, |c|);
        var e := c[next];
        e.key in index && WellBut(c[i := e.(psl := e.psl - 1)], index[e.key := i], next)
    {
      hide Shape;
      hide Homed;
      hide Next;
      PullShape(c, i);
      PullHomed(c, i);
    }

    lemma PullContents(c: seq<Cell<K, V>>, index: map<K, nat>, i: nat, next: nat)
      requires WellBut(c, index, i) && next < |c| && next != i
      requires c[next].Entry? && c[next].key in index && c[next].psl > 0
      requires WellBut(c[i := c[next].(psl := c[next].psl - 1)], index[c[next].key := i], next)
      ensures ContentsBut(c[i := c[next].(psl := c[next].psl - 1)], index[c[next].key := i], next) ==
        ContentsBut(c, index, i)
    {
      hide Shape;
      hide Homed;
      var e := c[next];
      var after, index' := c[i := e.(psl := e.psl - 1)], index[e.key := i];
      assert index'.Keys == index.Keys;
      forall k | k in index
        ensures after[index'[k]].value == c[index[k]].value
      {
        assert k != e.key ==> index[k] != next;
      }
    }

    lemma Clear(c: seq<Cell<K, V>>, index: map<K, nat>, i: nat)
      requires WellBut(c, index, i) && (c[Next(i, |c|)].Empty? || c[Next(i, |c|)].psl == 0)
      ensures Well(c[i := Empty], index)
      ensures Contents(c[i := Empty], index) == ContentsBut(c, index, i)
    {
      ClearShape(c, i);
      hide Shape;
      hide Steps;
      forall j | 0 <= j < |c| && j != i && c[j].Entry?
        ensures InHome(c[i := Empty], j, c[j])
      {
        assert InHome(c, j, c[j]);
      }
    }

    /** Takes the entry at idx out by pulling the entries behind it one step back, up to the first that is at home. */
    method ShiftBack(a: array<Cell<K, V>>, idx: nat, ghost index: map<K, nat>) returns (ghost index': map<K, nat>)
      requires Well(a[..], index) && |index| < a.Length && idx < a.Length && a[idx].Entry?
      modifies a
      ensures Well(a[..], index') && |index'| == |index| - 1
      ensures Contents(a[..], index') == old(Contents(a[..], index) - {a[idx].key})
    {
      hide Well;
      hide WellBut;
      hide Indexed;
      hide Contents;
      hide ContentsBut;
      hide Distance;
      var n := a.Length;
      WellIndexed(a[..], index);
      ghost var key := a[idx].key;
      ghost var target := Contents(a[..], index) - {key};
      ghost var free := FreeSlot(a[..], index);
      WellCell(a[..], index, idx);
      Kill(a[..], index, idx);
      index' := index - {key};
      assert |index'| == |index| - 1 by { assert index'.Keys == index.Keys - {key}; }
      var curr: nat := idx;
      while a[Next(curr, n)].Entry? && a[Next(curr, n)].psl > 0
        invariant curr < n && free < n && a[free].Empty? && a[curr].Entry?
        invariant WellBut(a[..], index', curr) && |index'| == |index| - 1
        invariant ContentsBut(a[..], index', curr) == target
        decreases Distance(curr, free, n)
      {
        var next: nat := Next(curr, n);
        ghost var before, was := a[..], index';
        Pull(before, was, curr);
        PullContents(before, was, curr, next);
        index' := index'[a[next].key := curr];
        assert |index'| == |was| by { assert index'.Keys == was.Keys; }
        DistanceNext(curr, free, n);
        a[curr] := a[next].(psl := a[next].psl - 1);
        assert a[..] == before[curr := before[next].(psl := before[next].psl - 1)];
        StillDead(a[..], index', next);
        curr := next;
      }
      Clear(a[..], index', curr);
      ghost var before := a[..];
      a[curr] := Empty;
      assert a[..] == before[curr := Empty];
      WellIndexed(a[..], index');
    }

    method RemoveKey(key: K) returns (ok: bool)
      requires Valid()
      modifies this`size, this`at, cells
      ensures Valid() && ok == (key in old(Map()))
      ensures Map() == old(Map()) - {key}
    {
      hide Well;
      hide Indexed;
      var found, idx := FindSlot(key);
      ok := found;
      if found {
        at := ShiftBack(cells, idx, at);
        size := size - 1;
        WellIndexed(cells[..], at);
      }
    }

    /** The entries of the first n slots. */
    ghost function Part(c: seq<Cell<K, V>>, index: map<K, nat>, n: nat): map<K, V>
      requires Indexed(c, index)
    {
      map k | k in index && index[k] < n :: c[index[k]].value
    }

    lemma PartMore(c: seq<Cell<K, V>>, index: map<K, nat>, n: nat)
      requires Indexed(c, index) && n < |c|
      ensures Part(c, index, n + 1) ==
        if c[n].Entry? then Part(c, index, n)[c[n].key := c[n].value] else Part(c, index, n)
      ensures c[n].Entry? ==> c[n].key !in Part(c, index, n)
    {
    }

    lemma PartSize(c: seq<Cell<K, V>>, index: map<K, nat>, n: nat)
      requires Indexed(c, index)
      ensures |Part(c, index, n)| <= |index|
      ensures n >= |c| ==> Part(c, index, n) == Contents(c, index)
      ensures n == 0 ==> Part(c, index, n) == map[]
    {
      assert Part(c, index, n).Keys <= index.Keys;
      SubsetSize(Part(c, index, n).Keys, index.Keys);
    }

    lemma KeysOfContents(c: seq<Cell<K, V>>, index: map<K, nat>)
      requires Indexed(c, index)
      ensures Contents(c, index).Keys == index.Keys && |Contents(c, index)| == |index|
    {
      assert Contents(c, index).Keys == index.Keys;
    }

    lemma EmptyWell(c: seq<Cell<K, V>>)
      requires forall i :: 0 <= i < |c| ==> c[i].Empty?
      ensures Well(c, map[]) && Contents(c, map[]) == map[]
    {
    }

    /** Moves every entry to a new array of at least the given capacity; false if there is no memory for it. */
    method EnsureCapacity(minCapacity: nat, memory: bool) returns (ok: bool)
      requires Valid()
      modifies this`cells, this`at
      ensures Valid() && Map() == old(Map()) && size == old(size)
      ensures cells == old(cells) || fresh(cells)
      ensures ok ==> cells.Length >= minCapacity && cells.Length >= 16
      ensures var capacity := NextPow2(if minCapacity < 16 then 16 else minCapacity);
        && (ok <==> memory || capacity <= old(cells.Length))
        && (ok ==> cells.Length == if capacity <= old(cells.Length) then old(cells.Length) else capacity)
      ensures memory ==> ok
      ensures !ok ==> cells == old(cells)
    {
      hide Well;
      hide Indexed;
      hide Contents;
      hide NextPow2;
      ghost var old' := cells[..];
      WellIndexed(old', at);
      var capacity := NextPow2(if minCapacity < 16 then 16 else minCapacity);
      if capacity <= cells.Length {
        return true;
      }
      if !memory {
        return false;
      }
      var slots := new Cell<K, V>[capacity](_ => Empty);
      EmptyWell(slots[..]);
      ghost var index := Rehash(cells, slots, at);
      WellIndexed(slots[..], index);
      KeysOfContents(slots[..], index);
      KeysOfContents(old', at);
      cells := slots;
      at := index;
      return true;
    }

    method Rehash(from: array<Cell<K, V>>, to: array<Cell<K, V>>, ghost was: map<K, nat>)
        returns (ghost index: map<K, nat>)
      requires Well(from[..], was) && |was| < to.Length && from != to
      requires Well(to[..], map[])
      modifies to
      ensures Well(to[..], index) && Contents(to[..], index) == old(Contents(from[..], was))
    {
      hide Well;
      hide Indexed;
      hide Part;
      hide Contents;
      ghost var c := from[..];
      index := map[];
      WellIndexed(c, was);
      WellIndexed(to[..], index);
      KeysOfContents(to[..], index);
      PartSize(c, was, 0);
      assert Contents(to[..], index) == map[];
      for i := 0 to from.Length
        invariant from[..] == c
        invariant Well(to[..], index) && Indexed(to[..], index)
        invariant Contents(to[..], index) == Part(c, was, i)
      {
        PartMore(c, was, i);
        if from[i].Entry? {
          PartSize(c, was, i);
          KeysOfContents(to[..], index);
          WellCell(c, was, i);
          index := InsertEntry(to, from[i], index);
          WellIndexed(to[..], index);
        }
      }
      PartSize(c, was, from.Length);
    }

    /**
     Maps a key to a value, replacing the old value if there is one; without memory it fails and the map is unchanged.
     */
    method Put(key: K, value: V, slotMemory: bool, keyMemory: bool) returns (ok: bool)
      requires Valid()
      modifies this, cells
      ensures Valid() && (key in old(Map()) || (slotMemory && keyMemory) ==> ok)
      ensures var grows := old(cells.Length == 0 || size >= cells.Length * 3 / 4);
        ok <==> key in old(Map()) || (keyMemory && (slotMemory || !grows))
      ensures cells == old(cells) || fresh(cells)
      ensures Map() == if ok then old(Map())[key := value] else old(Map())
    {
      hide Well;
      hide Indexed;
      var found, idx := FindSlot(key);
      WellIndexed(cells[..], at);
      if found {
        ghost var before := cells[..];
        Overwrite(before, at, idx, value);
        cells[idx] := cells[idx].(value := value);
        assert cells[..] == before[idx := before[idx].(value := value)];
        return true;
      }
      if cells.Length == 0 || size >= cells.Length * 3 / 4 {
        var enough := EnsureCapacity(if cells.Length == 0 then 16 else 2 * cells.Length, slotMemory);
        if !enough {
          return false;
        }
      }
      if !keyMemory {
        return false;
      }
      WellIndexed(cells[..], at);
      at := InsertEntry(cells, Entry(key, value, hash(key), 0), at);
      size := size + 1;
      WellIndexed(cells[..], at);
      return true;
    }

    method Get(key: K) returns (value: Option<V>)
      requires Valid()
      ensures value == if key in Map() then Some(Map()[key]) else None
    {
      hide Well;
      var found, idx := FindSlot(key);
      return if found then Some(cells[idx].value) else None;
    }

    lemma Overwrite(c: seq<Cell<K, V>>, index: map<K, nat>, i: nat, value: V)
      requires Well(c, index) && i < |c| && c[i].Entry?
      ensures Well(c[i := c[i].(value := value)], index)
      ensures Contents(c[i := c[i].(value := value)], index) == Contents(c, index)[c[i].key := value]
    {
      hide Steps;
      hide Home;
      OverwriteShape(c, i, value);
      hide Shape;
      var after := c[i := c[i].(value := value)];
      forall j | 0 <= j < |c| && after[j].Entry?
        ensures InHome(after, j, after[j])
      {
        assert InHome(c, j, c[j]);
      }
      assert Well(after, index);
      assert Contents(after, index).Keys == index.Keys == Contents(c, index)[c[i].key := value].Keys;
    }

    lemma OverwriteShape(c: seq<Cell<K, V>>, i: nat, value: V)
      requires Shape(c) && i < |c| && c[i].Entry?
      ensures Shape(c[i := c[i].(value := value)])
    {
      var after := c[i := c[i].(value := value)];
      forall j | 0 <= j < |c|
        ensures Follows(after[j], after[Next(j, |c|)])
      {
        assert Follows(c[j], c[Next(j, |c|)]);
      }
    }

    lemma StillDead(c: seq<Cell<K, V>>, index: map<K, nat>, i: nat)
      requires WellBut(c, index, i)
      ensures i < |c| && c[i].Entry?
    {
    }

    lemma CarryStart(c: seq<Cell<K, V>>, index: map<K, nat>, e: Cell<K, V>)
      requires |c| > 0 && e.Entry? && e.psl == 0 && e.hash == hash(e.key) && e.key !in index
      ensures Carried(c, index, Home(e.hash, |c|), e)
    {
    }
  }

  // ---------- many operations ----------

  datatype Op<K, V> = Store(key: K, value: V) | Load(key: K) | Delete(key: K)

  datatype Answer<V> = Stored | Loaded(value: Option<V>) | Deleted(was: bool)

  /** What an operation does to a plain map. */
  function Applied<K, V>(m: map<K, V>, op: Op<K, V>): map<K, V> {
    match op
    case Store(key, value) => m[key := value]
    case Load(_) => m
    case Delete(key) => m - {key}
  }

  function AnswerTo<K, V>(m: map<K, V>, op: Op<K, V>): Answer<V> {
    match op
    case Store(_, _) => Stored
    case Load(key) => Loaded(if key in m then Some(m[key]) else None)
    case Delete(key) => Deleted(key in m)
  }

  /** The plain map after a series of operations on an empty one. */
  function MapAfter<K, V>(ops: seq<Op<K, V>>): map<K, V> {
    if ops == [] then map[] else Applied(MapAfter(ops[..|ops| - 1]), ops[|ops| - 1])
  }

  lemma MapAfterMore<K, V>(ops: seq<Op<K, V>>, i: nat)
    requires i < |ops|
    ensures MapAfter(ops[..i + 1]) == Applied(MapAfter(ops[..i]), ops[i])
  {
    assert ops[..i + 1][..i] == ops[..i];
  }

  method Perform<K(==, !new), V>(m: HashMap<K, V>, op: Op<K, V>) returns (answer: Answer<V>)
    requires m.Valid()
    modifies m, m.cells
    ensures m.Valid() && (m.cells == old(m.cells) || fresh(m.cells))
    ensures m.Map() == Applied(old(m.Map()), op) && answer == AnswerTo(old(m.Map()), op)
  {
    hide m.Valid;
    hide m.Map;
    match op
    case Store(key, value) =>
      var ok := m.Put(key, value, true, true);
      answer := Stored;
    case Load(key) =>
      var value := m.Get(key);
      answer := Loaded(value);
    case Delete(key) =>
      var was := m.RemoveKey(key);
      answer := Deleted(was);
  }

  /** Any series of operations, with memory at hand, gets from the table the answers a plain map would give. */
  method Replay<K(==, !new), V>(hash: K -> nat, ops: seq<Op<K, V>>) returns (m: HashMap<K, V>, answers: seq<Answer<V>>)
    ensures m.Valid() && m.Map() == MapAfter(ops) && |answers| == |ops|
    ensures forall i :: 0 <= i < |ops| ==> answers[i] == AnswerTo(MapAfter(ops[..i]), ops[i])
  {
    hide m.Valid;
    hide m.Map;
    hide Applied;
    hide AnswerTo;
    m := new HashMap(hash);
    answers := [];
    for i := 0 to |ops|
      invariant fresh(m) && fresh(m.cells) && m.Valid() && m.Map() == MapAfter(ops[..i]) && |answers| == i
      invariant forall j :: 0 <= j < i ==> answers[j] == AnswerTo(MapAfter(ops[..j]), ops[j])
    {
      hide MapAfter;
      MapAfterMore(ops, i);
      var answer := Perform(m, ops[i]);
      answers := answers + [answer];
    }
    assert ops[..|ops|] == ops;
  }

  /** The least power of two that is at least n. */
  function NextPow2(n: nat): (p: nat)
    ensures p >= n && (p == 1 || p < 2 * n) && IsPow2(p)
  {
    if n <= 1 then
      assert Pow2(0) == 1;
      1
    else
      var p := NextPow2((n + 1) / 2);
      var k: nat :| p == Pow2(k);
      assert 2 * p == Pow2(k + 1);
      2 * p
  }

  lemma PrevOfNext(i: nat, n: nat)
    requires i < n
    ensures Prev(Next(i, n), n) == i
  {
  }

  lemma StepsZero(h: nat, n: nat)
    requires h < n
    ensures Steps(h, 0, n) == h
  {
  }

  lemma StepsMore(h: nat, d: nat, n: nat)
    requires h < n
    ensures Steps(h, d + 1, n) == Next(Steps(h, d, n), n)
  {
  }

  predicate Other<K(==), V>(c: Cell<K, V>, key: K) {
    c.Entry? && c.key != key
  }
}
