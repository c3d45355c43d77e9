/**
 The stable sort: natural runs, short ones extended by insertion sort, are merged from a stack of at most 64 runs with a
 scratch buffer of half the array.
 */
module StableSort {

  /** An element: the comparator sees its key only. */
  datatype Item = Item(key: int, payload: int)

  predicate Sorted(s: seq<Item>) {
    forall i, j :: 0 <= i < j < |s| ==> s[i].key <= s[j].key
  }

  /** The elements with one key, in order. */
  function Only(s: seq<Item>, key: int): seq<Item> {
    if s == [] then [] else (if s[0].key == key then [s[0]] else []) + Only(s[1..], key)
  }

  /** The same elements, those with equal keys in the same order: what a stable rearrangement keeps. */
  ghost predicate Same(s: seq<Item>, t: seq<Item>) {
    forall key :: Only(s, key) == Only(t, key)
  }

  lemma {:induction false} OnlyJoin(s: seq<Item>, t: seq<Item>, key: int)
    ensures Only(s + t, key) == Only(s, key) + Only(t, key)
    decreases |s|
  {
    hide Only;
    OnlyStep(s, key);
    OnlyStep(s + t, key);
    if s == [] {
      assert s + t == t;
    } else {
      assert (s + t)[1..] == s[1..] + t;
      OnlyJoin(s[1..], t, key);
    }
  }

  lemma OnlyStep(s: seq<Item>, key: int)
    ensures s == [] ==> Only(s, key) == []
    ensures s != [] ==> Only(s, key) == (if s[0].key == key then [s[0]] else []) + Only(s[1..], key)
  {
  }

  /** Only the middle part is rearranged. */
  lemma SameWithin(front: seq<Item>, s: seq<Item>, t: seq<Item>, back: seq<Item>)
    requires Same(s, t)
    ensures Same(front + s + back, front + t + back)
  {
    hide Only;
    forall key
      ensures Only(front + s + back, key) == Only(front + t + back, key)
    {
      OnlyJoin(front + s, back, key);
      OnlyJoin(front, s, key);
      OnlyJoin(front + t, back, key);
      OnlyJoin(front, t, key);
    }
  }

  lemma SameTrans(s: seq<Item>, t: seq<Item>, u: seq<Item>)
    requires Same(s, t) && Same(t, u)
    ensures Same(s, u)
  {
    hide Only;
  }

  /** Elements that all have another key. */
  lemma {:induction false} OnlyNone(s: seq<Item>, key: int)
    requires forall i :: 0 <= i < |s| ==> s[i].key != key
    ensures Only(s, key) == []
  {
    if s != [] {
      OnlyNone(s[1..], key);
    }
  }

  lemma OnlyOne(x: Item, key: int)
    ensures Only([x], key) == if x.key == key then [x] else []
  {
    assert [x][1..] == [];
  }

  lemma {:induction false} SamePermutes(s: seq<Item>, t: seq<Item>, x: Item)
    requires Same(s, t)
    ensures multiset(s)[x] == multiset(t)[x]
  {
    OnlyCount(s, x);
    OnlyCount(t, x);
  }

  lemma {:induction false} OnlyCount(s: seq<Item>, x: Item)
    ensures multiset(s)[x] == multiset(Only(s, x.key))[x]
  {
    if s != [] {
      assert s == [s[0]] + s[1..];
      OnlyCount(s[1..], x);
    }
  }

  // ---------- insertion ----------

  /** Moving x in front of elements with larger keys. */
  lemma InsertSame(front: seq<Item>, back: seq<Item>, x: Item)
    requires forall i :: 0 <= i < |back| ==> back[i].key > x.key
    ensures Same(front + back + [x], front + [x] + back)
  {
    hide Only;
    forall key
      ensures Only(front + back + [x], key) == Only(front + [x] + back, key)
    {
      OnlyJoin(front + back, [x], key);
      OnlyJoin(front, back, key);
      OnlyJoin(front + [x], back, key);
      OnlyJoin(front, [x], key);
      OnlyOne(x, key);
      if key == x.key {
        OnlyNone(back, key);
      }
    }
  }

  lemma InsertSorted(front: seq<Item>, back: seq<Item>, x: Item)
    requires Sorted(front + back)
    requires forall i :: 0 <= i < |back| ==> back[i].key > x.key
    requires front != [] ==> front[|front| - 1].key <= x.key
    ensures Sorted(front + [x] + back)
  {
    var s, t := front + back, front + [x] + back;
    forall i, j | 0 <= i < j < |t|
      ensures t[i].key <= t[j].key
    {
      var i', j' := if i <= |front| then i else i - 1, if j <= |front| then j else j - 1;
      assert i != |front| ==> t[i] == s[i'];
      assert j != |front| ==> t[j] == s[j'];
      if i < |front| {
        assert s[i] == front[i] && (i < |front| - 1 ==> s[i].key <= s[|front| - 1].key);
      }
    }
  }

  /** Puts the element behind a sorted stretch into its place there. */
  method InsertOne(a: array<Item>, lo: nat, n: nat)
    requires lo + n < a.Length && Sorted(a[lo..lo + n])
    modifies a
    ensures Sorted(a[lo..lo + n + 1]) && Same(old(a[lo..lo + n + 1]), a[lo..lo + n + 1])
    ensures a[..lo] == old(a[..lo]) && a[lo + n + 1..] == old(a[lo + n + 1..])
  {
    hide Same;
    hide Only;
    ghost var s := a[..];
    var end := lo + n;
    var x := a[end];
    var p := end;
    while p > lo && a[p - 1].key > x.key
      invariant lo <= p <= end
      invariant forall i :: 0 <= i < p ==> a[i] == s[i]
      invariant forall i :: p < i <= end ==> a[i] == s[i - 1]
      invariant forall i :: end < i < a.Length ==> a[i] == s[i]
      invariant forall i :: p <= i < end ==> s[i].key > x.key
    {
      a[p] := a[p - 1];
      p := p - 1;
    }
    a[p] := x;
    Inserted(s, a[..], lo, p, end, x);
  }

  /** The stretch after x moved from its end to place p. */
  lemma Inserted(s: seq<Item>, t: seq<Item>, lo: nat, p: nat, end: nat, x: Item)
    requires lo <= p <= end < |s| == |t| && s[end] == x == t[p] && Sorted(s[lo..end])
    requires forall i :: 0 <= i < p ==> t[i] == s[i]
    requires forall i :: p < i <= end ==> t[i] == s[i - 1]
    requires forall i :: end < i < |s| ==> t[i] == s[i]
    requires forall i :: p <= i < end ==> s[i].key > x.key
    requires p > lo ==> s[p - 1].key <= x.key
    ensures Sorted(t[lo..end + 1]) && Same(s[lo..end + 1], t[lo..end + 1])
    ensures t[..lo] == s[..lo] && t[end + 1..] == s[end + 1..]
  {
    hide Only;
    hide Same;
    var front, back := s[lo..p], s[p..end];
    assert s[lo..end] == front + back;
    InsertSorted(front, back, x);
    InsertSame(front, back, x);
    Spliced(s, t, lo, p, end, x);
  }

  lemma Spliced(s: seq<Item>, t: seq<Item>, lo: nat, p: nat, end: nat, x: Item)
    requires lo <= p <= end < |s| == |t| && s[end] == x == t[p]
    requires forall i :: 0 <= i < p ==> t[i] == s[i]
    requires forall i :: p < i <= end ==> t[i] == s[i - 1]
    ensures t[lo..end + 1] == s[lo..p] + [x] + s[p..end]
    ensures s[lo..end + 1] == s[lo..p] + s[p..end] + [x]
  {
    var u, v := t[lo..end + 1], s[lo..p] + [x] + s[p..end];
    assert |u| == |v|;
    forall i | 0 <= i < |u|
      ensures u[i] == v[i]
    {
      assert u[i] == t[lo + i];
      if i > p - lo {
        assert t[lo + i] == s[lo + i - 1] == s[p..end][i - (p - lo) - 1];
      }
    }
    assert s[lo..end + 1] == s[lo..end] + [x];
  }

  /** Insertion sort of a stretch of the array. */
  method InsertionSort(a: array<Item>, lo: nat, n: nat)
    requires lo + n <= a.Length
    modifies a
    ensures Sorted(a[lo..lo + n]) && Same(old(a[lo..lo + n]), a[lo..lo + n])
    ensures a[..lo] == old(a[..lo]) && a[lo + n..] == old(a[lo + n..])
  {
    hide Only;
    if n == 0 {
      return;
    }
    ghost var was := a[lo..lo + n];
    for i := 1 to n
      invariant Sorted(a[lo..lo + i]) && Same(was, a[lo..lo + n])
      invariant a[..lo] == old(a[..lo]) && a[lo + n..] == old(a[lo + n..])
    {
      ghost var before := a[..];
      InsertOne(a, lo, i);
      assert a[lo + i + 1..lo + n] == before[lo + i + 1..lo + n];
      assert before[lo..lo + n] == [] + before[lo..lo + i + 1] + before[lo + i + 1..lo + n];
      assert a[lo..lo + n] == [] + a[lo..lo + i + 1] + a[lo + i + 1..lo + n];
      SameWithin([], before[lo..lo + i + 1], a[lo..lo + i + 1], before[lo + i + 1..lo + n]);
      SameTrans(was, before[lo..lo + n], a[lo..lo + n]);
    }
  }

  // ---------- reversing ----------

  predicate Descending(s: seq<Item>) {
    forall i, j :: 0 <= i < j < |s| ==> s[i].key > s[j].key
  }

  function Reversed(s: seq<Item>): seq<Item> {
    if s == [] then [] else Reversed(s[1..]) + [s[0]]
  }

  lemma {:induction false} ReversedAt(s: seq<Item>)
    ensures |Reversed(s)| == |s| && forall i :: 0 <= i < |s| ==> Reversed(s)[i] == s[|s| - 1 - i]
  {
    if s != [] {
      ReversedAt(s[1..]);
    }
  }

  /** Keys that strictly descend are all different, so turning them around moves no two equal elements. */
  lemma {:induction false} ReversedSame(s: seq<Item>)
    requires Descending(s)
    ensures Same(s, Reversed(s))
  {
    if s != [] {
      ReversedSame(s[1..]);
      var rest := Reversed(s[1..]);
      forall key
        ensures Only(s, key) == Only(rest + [s[0]], key)
      {
        OnlyJoin(rest, [s[0]], key);
        OnlyOne(s[0], key);
        if key == s[0].key {
          OnlyNone(s[1..], key);
        }
      }
    }
  }

  method ReverseRun(a: array<Item>, lo: nat, n: nat)
    requires lo + n <= a.Length && Descending(a[lo..lo + n])
    modifies a
    ensures Sorted(a[lo..lo + n]) && Same(old(a[lo..lo + n]), a[lo..lo + n])
    ensures a[..lo] == old(a[..lo]) && a[lo + n..] == old(a[lo + n..])
  {
    hide Same;
    hide Descending;
    hide Sorted;
    ghost var s := a[..];
    var left, right := lo, lo + n - 1;
    while left < right
      invariant lo <= left && right == lo + lo + n - 1 - left && left <= right + 1
      invariant forall i :: left <= i <= right ==> a[i] == s[i]
      invariant forall i :: lo <= i < left ==> a[i] == s[lo + lo + n - 1 - i]
      invariant forall i :: right < i < lo + n ==> a[i] == s[lo + lo + n - 1 - i]
      invariant forall i :: 0 <= i < lo ==> a[i] == s[i]
      invariant forall i :: lo + n <= i < a.Length ==> a[i] == s[i]
    {
      a[left], a[right] := a[right], a[left];
      left := left + 1;
      right := right - 1;
    }
    TurnedAround(s, a[..], lo, n);
  }

  lemma TurnedAround(s: seq<Item>, t: seq<Item>, lo: nat, n: nat)
    requires lo + n <= |s| == |t| && Descending(s[lo..lo + n])
    requires forall i :: lo <= i < lo + n ==> t[i] == s[lo + lo + n - 1 - i]
    requires forall i :: 0 <= i < lo ==> t[i] == s[i]
    requires forall i :: lo + n <= i < |s| ==> t[i] == s[i]
    ensures Sorted(t[lo..lo + n]) && Same(s[lo..lo + n], t[lo..lo + n])
    ensures t[..lo] == s[..lo] && t[lo + n..] == s[lo + n..]
  {
    hide Same;
    hide Only;
    var run := s[lo..lo + n];
    ReversedSame(run);
    ReversedAt(run);
    assert t[lo..lo + n] == Reversed(run);
  }

  // ---------- merging ----------

  /** The merge of two sorted runs, the left one first among equal keys. */
  function Merged(a: seq<Item>, b: seq<Item>): seq<Item>
    decreases |a| + |b|
  {
    if a == [] then b
    else if b == [] then a
    else if a[0].key <= b[0].key then [a[0]] + Merged(a[1..], b)
    else [b[0]] + Merged(a, b[1..])
  }

  lemma {:induction false} MergedKeys(a: seq<Item>, b: seq<Item>, low: int)
    requires forall i :: 0 <= i < |a| ==> low <= a[i].key
    requires forall i :: 0 <= i < |b| ==> low <= b[i].key
    ensures |Merged(a, b)| == |a| + |b| && forall i :: 0 <= i < |Merged(a, b)| ==> low <= Merged(a, b)[i].key
    decreases |a| + |b|
  {
    if a != [] && b != [] {
      if a[0].key <= b[0].key {
        MergedKeys(a[1..], b, low);
      } else {
        MergedKeys(a, b[1..], low);
      }
    }
  }

  lemma {:induction false} MergedSorted(a: seq<Item>, b: seq<Item>)
    requires Sorted(a) && Sorted(b)
    ensures Sorted(Merged(a, b))
    decreases |a| + |b|
  {
    if a != [] && b != [] {
      if a[0].key <= b[0].key {
        MergedSorted(a[1..], b);
        MergedKeys(a[1..], b, a[0].key);
      } else {
        MergedSorted(a, b[1..]);
        MergedKeys(a, b[1..], b[0].key);
      }
    }
  }

  lemma {:induction false} MergedOnly(a: seq<Item>, b: seq<Item>, key: int)
    requires Sorted(a) && Sorted(b)
    ensures Only(Merged(a, b), key) == Only(a, key) + Only(b, key)
    decreases |a| + |b|
  {
    hide Only;
    hide Merged;
    MergedStep(a, b);
    OnlyStep(a, key);
    OnlyStep(b, key);
    if a != [] && b != [] {
      if a[0].key <= b[0].key {
        MergedOnly(a[1..], b, key);
        OnlyJoin([a[0]], Merged(a[1..], b), key);
        OnlyOne(a[0], key);
      } else {
        MergedOnly(a, b[1..], key);
        OnlyJoin([b[0]], Merged(a, b[1..]), key);
        OnlyOne(b[0], key);
        if key == b[0].key {
          OnlyNone(a, key);
        }
      }
    }
  }

  lemma MergedSame(a: seq<Item>, b: seq<Item>)
    requires Sorted(a) && Sorted(b)
    ensures Same(a + b, Merged(a, b))
  {
    hide Only;
    forall key
      ensures Only(a + b, key) == Only(Merged(a, b), key)
    {
      OnlyJoin(a, b, key);
      MergedOnly(a, b, key);
    }
  }

  lemma MergedStep(a: seq<Item>, b: seq<Item>)
    ensures a == [] ==> Merged(a, b) == b
    ensures b == [] ==> Merged(a, b) == a
    ensures a != [] && b != [] ==>
      Merged(a, b) == if a[0].key <= b[0].key then [a[0]] + Merged(a[1..], b) else [b[0]] + Merged(a, b[1..])
  {
  }

  /** The same merge, taken from the back: the right run first among equal keys. */
  lemma {:induction false} MergedBack(a: seq<Item>, b: seq<Item>)
    requires Sorted(a) && Sorted(b) && a != [] && b != []
    ensures
      var x, y := a[|a| - 1], b[|b| - 1];
      Merged(a, b) == if x.key > y.key then Merged(a[..|a| - 1], b) + [x] else Merged(a, b[..|b| - 1]) + [y]
    decreases |a| + |b|, 1
  {
    if a[0].key <= b[0].key {
      MergedBackLeft(a, b);
    } else {
      MergedBackRight(a, b);
    }
  }

  lemma SortedParts(s: seq<Item>)
    requires Sorted(s) && s != []
    ensures Sorted(s[1..]) && s[0].key <= s[|s| - 1].key
  {
  }

  lemma {:induction false} MergedBackLeft(a: seq<Item>, b: seq<Item>)
    requires Sorted(a) && Sorted(b) && a != [] && b != [] && a[0].key <= b[0].key
    ensures
      var x, y := a[|a| - 1], b[|b| - 1];
      Merged(a, b) == if x.key > y.key then Merged(a[..|a| - 1], b) + [x] else Merged(a, b[..|b| - 1]) + [y]
    decreases |a| + |b|, 0
  {
    hide Merged;
    hide Sorted;
    SortedParts(a);
    SortedParts(b);
    var x, y, a', b' := a[|a| - 1], b[|b| - 1], a[..|a| - 1], b[..|b| - 1];
    MergedStep(a, b);
    if |a| == 1 {
      MergedStep([], b);
      MergedStep(a, b');
      MergedStep([], b');
      assert a == [a[0]] && a[1..] == [];
      assert [a[0]] + b == ([a[0]] + b') + [y];
    } else {
      MergedBack(a[1..], b);
      if x.key > y.key {
        MergedStep(a', b);
        assert a[1..][..|a| - 2] == a'[1..];
        assert [a[0]] + (Merged(a'[1..], b) + [x]) == ([a[0]] + Merged(a'[1..], b)) + [x];
      } else {
        MergedStep(a, b');
        MergedStep(a[1..], b');
        assert a == [a[0]] + a[1..];
        assert [a[0]] + (Merged(a[1..], b') + [y]) == ([a[0]] + Merged(a[1..], b')) + [y];
      }
    }
  }

  lemma {:induction false} MergedBackRight(a: seq<Item>, b: seq<Item>)
    requires Sorted(a) && Sorted(b) && a != [] && b != [] && a[0].key > b[0].key
    ensures
      var x, y := a[|a| - 1], b[|b| - 1];
      Merged(a, b) == if x.key > y.key then Merged(a[..|a| - 1], b) + [x] else Merged(a, b[..|b| - 1]) + [y]
    decreases |a| + |b|, 0
  {
    hide Merged;
    hide Sorted;
    SortedParts(a);
    SortedParts(b);
    var x, y, a', b' := a[|a| - 1], b[|b| - 1], a[..|a| - 1], b[..|b| - 1];
    MergedStep(a, b);
    if |b| == 1 {
      MergedStep(a, []);
      MergedStep(a', b);
      MergedStep(a', []);
      assert b == [b[0]] && b[1..] == [];
      assert [b[0]] + a == ([b[0]] + a') + [x];
    } else {
      MergedBack(a, b[1..]);
      if x.key > y.key {
        MergedStep(a', b);
        MergedStep(a', b[1..]);
        assert b == [b[0]] + b[1..];
        assert [b[0]] + (Merged(a', b[1..]) + [x]) == ([b[0]] + Merged(a', b[1..])) + [x];
      } else {
        MergedStep(a, b');
        assert b[1..][..|b| - 2] == b'[1..];
        assert [b[0]] + (Merged(a, b'[1..]) + [y]) == ([b[0]] + Merged(a, b'[1..])) + [y];
      }
    }
  }

  /**
   A forward merge of s[start..mid] and s[mid..end] has taken i elements of the left run and got to j in the right
   one.
   */
  ghost predicate Forward(s: seq<Item>, t: seq<Item>, start: nat, mid: nat, end: nat, i: nat, j: nat) {
    && start + i <= mid <= j <= end <= |s| == |t|
    && t[j..] == s[j..] && t[..start] == s[..start]
    && t[start..start + i + (j - mid)] + Merged(s[start + i..mid], s[j..end]) == Merged(s[start..mid], s[mid..end])
  }

  lemma ForwardLeft(s: seq<Item>, t: seq<Item>, start: nat, mid: nat, end: nat, i: nat, j: nat)
    requires Forward(s, t, start, mid, end, i, j) && start + i < mid && j < end && s[start + i].key <= s[j].key
    ensures Forward(s, t[start + i + (j - mid) := s[start + i]], start, mid, end, i + 1, j)
  {
    hide Merged;
    var dest := start + i + (j - mid);
    var t' := t[dest := s[start + i]];
    MergedStep(s[start + i..mid], s[j..end]);
    assert s[start + i..mid][1..] == s[start + i + 1..mid];
    assert t'[start..dest + 1] == t[start..dest] + [s[start + i]];
  }

  lemma ForwardRight(s: seq<Item>, t: seq<Item>, start: nat, mid: nat, end: nat, i: nat, j: nat)
    requires Forward(s, t, start, mid, end, i, j) && start + i < mid && j < end && s[start + i].key > s[j].key
    ensures Forward(s, t[start + i + (j - mid) := s[j]], start, mid, end, i, j + 1)
  {
    hide Merged;
    var dest := start + i + (j - mid);
    var t' := t[dest := s[j]];
    MergedStep(s[start + i..mid], s[j..end]);
    assert s[j..end][1..] == s[j + 1..end];
    assert t'[start..dest + 1] == t[start..dest] + [s[j]];
  }

  lemma ForwardEnd(s: seq<Item>, t: seq<Item>, t': seq<Item>, start: nat, mid: nat, end: nat, i: nat, j: nat)
    requires Forward(s, t, start, mid, end, i, j) && (start + i == mid || j == end) && |t'| == |t|
    requires var dest := start + i + (j - mid); t'[..dest] == t[..dest]
    requires var dest := start + i + (j - mid); t'[dest..dest + (mid - start - i)] == s[start + i..mid]
    requires var dest := start + i + (j - mid); t'[dest + (mid - start - i)..] == t[dest + (mid - start - i)..]
    ensures t'[start..end] == Merged(s[start..mid], s[mid..end]) && t'[..start] == s[..start] && t'[end..] == s[end..]
  {
    hide Merged;
    var dest := start + i + (j - mid);
    MergedStep(s[start + i..mid], s[j..end]);
    assert t'[start..end] == t'[..dest][start..] + t'[dest..j] + t'[j..][..end - j];
    assert t'[..dest][start..] == t[start..dest];
    assert t'[..start] == t'[..dest][..start] == t[..dest][..start];
    assert t'[end..] == t'[j..][end - j..] && t[j..][end - j..] == s[end..];
  }

  /** Merges forward, with the left run copied to the scratch buffer. */
  method MergeForward(a: array<Item>, start: nat, la: nat, lb: nat, scratch: array<Item>)
    requires start + la + lb <= a.Length && la <= scratch.Length && a != scratch
    modifies a, scratch
    ensures a[start..start + la + lb] == Merged(old(a[start..start + la]), old(a[start + la..start + la + lb]))
    ensures a[..start] == old(a[..start]) && a[start + la + lb..] == old(a[start + la + lb..])
  {
    hide Merged;
    hide Forward;
    ghost var s := a[..];
    var mid, end := start + la, start + la + lb;
    CopyOut(a, start, la, scratch);
    var i, j, dest := 0, mid, start;
    ForwardStart(s, start, mid, end);
    while i < la && j < end
      invariant i <= la && mid <= j <= end && dest == start + i + (j - mid)
      invariant scratch[..la] == s[start..mid] && Forward(s, a[..], start, mid, end, i, j)
    {
      ghost var t := a[..];
      ForwardSame(s, t, start, mid, end, i, j);
      CopiedAt(scratch[..la], s, start, i);
      if scratch[i].key <= a[j].key {
        ForwardLeft(s, t, start, mid, end, i, j);
        a[dest] := scratch[i];
        i := i + 1;
      } else {
        ForwardRight(s, t, start, mid, end, i, j);
        a[dest] := a[j];
        j := j + 1;
      }
      assert a[..] == t[dest := a[dest]];
      dest := dest + 1;
    }
    ghost var t := a[..];
    assert scratch[i..la] == scratch[..la][i..] == s[start + i..mid];
    CopyIn(scratch, i, la - i, a, dest);
    ForwardEnd(s, t, a[..], start, mid, end, i, j);
  }

  lemma CopiedAt(copy: seq<Item>, s: seq<Item>, lo: nat, k: nat)
    requires k < |copy| && lo + |copy| <= |s| && copy == s[lo..lo + |copy|]
    ensures copy[k] == s[lo + k]
  {
  }

  lemma ForwardStart(s: seq<Item>, start: nat, mid: nat, end: nat)
    requires start <= mid <= end <= |s|
    ensures Forward(s, s, start, mid, end, 0, mid)
  {
  }

  lemma ForwardSame(s: seq<Item>, t: seq<Item>, start: nat, mid: nat, end: nat, i: nat, j: nat)
    requires Forward(s, t, start, mid, end, i, j) && j < end
    ensures |t| == |s| && t[j] == s[j]
  {
    assert t[j..][0] == s[j..][0];
  }

  /** A backward merge has i elements of the left run and j of the right one still to place. */
  ghost predicate Backward(s: seq<Item>, t: seq<Item>, start: nat, mid: nat, end: nat, i: nat, j: nat) {
    && start + i <= mid && mid + j <= end <= |s| == |t|
    && t[..start + i] == s[..start + i] && t[end..] == s[end..]
    && Merged(s[start..start + i], s[mid..mid + j]) + t[start + i + j..end] == Merged(s[start..mid], s[mid..end])
  }

  lemma BackwardLeft(s: seq<Item>, t: seq<Item>, start: nat, mid: nat, end: nat, i: nat, j: nat)
    requires Backward(s, t, start, mid, end, i, j) && i > 0 && j > 0 && s[start + i - 1].key > s[mid + j - 1].key
    requires Sorted(s[start..mid]) && Sorted(s[mid..end])
    ensures Backward(s, t[start + i + j - 1 := s[start + i - 1]], start, mid, end, i - 1, j)
  {
    hide Merged;
    var left, right, dest := s[start..start + i], s[mid..mid + j], start + i + j - 1;
    var t' := t[dest := s[start + i - 1]];
    SortedPrefix(s[start..mid], i);
    SortedPrefix(s[mid..end], j);
    assert s[start..mid][..i] == left && s[mid..end][..j] == right;
    MergedBack(left, right);
    assert left[..i - 1] == s[start..start + i - 1];
    assert t'[dest..end] == [s[start + i - 1]] + t[dest + 1..end];
    assert Merged(left[..i - 1], right) + [left[i - 1]] + t[dest + 1..end] ==
      Merged(left[..i - 1], right) + t'[dest..end];
    assert t'[..start + i - 1] == t[..start + i][..start + i - 1];
  }

  lemma BackwardRight(s: seq<Item>, t: seq<Item>, start: nat, mid: nat, end: nat, i: nat, j: nat)
    requires Backward(s, t, start, mid, end, i, j) && i > 0 && j > 0 && s[start + i - 1].key <= s[mid + j - 1].key
    requires Sorted(s[start..mid]) && Sorted(s[mid..end])
    ensures Backward(s, t[start + i + j - 1 := s[mid + j - 1]], start, mid, end, i, j - 1)
  {
    hide Merged;
    var left, right, dest := s[start..start + i], s[mid..mid + j], start + i + j - 1;
    var t' := t[dest := s[mid + j - 1]];
    SortedPrefix(s[start..mid], i);
    SortedPrefix(s[mid..end], j);
    assert s[start..mid][..i] == left && s[mid..end][..j] == right;
    MergedBack(left, right);
    assert right[..j - 1] == s[mid..mid + j - 1];
    assert t'[dest..end] == [s[mid + j - 1]] + t[dest + 1..end];
    assert Merged(left, right[..j - 1]) + [right[j - 1]] + t[dest + 1..end] ==
      Merged(left, right[..j - 1]) + t'[dest..end];
    assert t'[..start + i] == t[..start + i];
  }

  lemma SortedPrefix(s: seq<Item>, n: nat)
    requires Sorted(s) && n <= |s|
    ensures Sorted(s[..n])
  {
  }

  lemma BackwardEnd(s: seq<Item>, t: seq<Item>, t': seq<Item>, start: nat, mid: nat, end: nat, i: nat, j: nat)
    requires Backward(s, t, start, mid, end, i, j) && (i == 0 || j == 0) && |t'| == |t|
    requires t'[start..start + j] == s[mid..mid + j]
    requires t'[..start] == t[..start] && t'[start + j..] == t[start + j..]
    ensures t'[start..end] == Merged(s[start..mid], s[mid..end]) && t'[..start] == s[..start] && t'[end..] == s[end..]
  {
    hide Merged;
    var left, right := s[start..start + i], s[mid..mid + j];
    MergedStep(left, right);
    assert Merged(left, right) == left + right;
    assert t[..start] == t[..start + i][..start] && s[..start] == s[..start + i][..start];
    SliceOfRest(t', t, start + j, end - start - j);
    RestOfRest(t', t, start + j, end);
    assert t'[start..end] == t'[start..start + j] + t'[start + j..end];
    if j == 0 {
      assert t[start..start + i] == t[..start + i][start..] == s[..start + i][start..] == left;
      assert t[start..end] == t[start..start + i] + t[start + i..end];
    }
  }

  lemma RestOfRest(s: seq<Item>, t: seq<Item>, x: nat, y: nat)
    requires x <= y <= |s| == |t| && s[x..] == t[x..]
    ensures s[y..] == t[y..]
  {
    assert s[y..] == s[x..][y - x..];
  }

  /** Puts the larger of the two last elements, the right one if they are equal, into its place. */
  method BackwardOnce(a: array<Item>, start: nat, mid: nat, end: nat, i: nat, j: nat, scratch: array<Item>,
                      ghost s: seq<Item>)
    returns (i': nat, j': nat)
    requires a != scratch && Backward(s, a[..], start, mid, end, i, j) && i > 0 && j > 0
    requires end - mid <= scratch.Length && scratch[..end - mid] == s[mid..end]
    requires Sorted(s[start..mid]) && Sorted(s[mid..end])
    modifies a
    ensures Backward(s, a[..], start, mid, end, i', j') && i' <= i && j' <= j && i' + j' == i + j - 1
  {
    hide Sorted;
    hide Merged;
    ghost var t := a[..];
    BackwardSame(s, t, start, mid, end, i, j);
    CopiedAt(scratch[..end - mid], s, mid, j - 1);
    var dest := start + i + j - 1;
    if a[start + i - 1].key > scratch[j - 1].key {
      BackwardLeft(s, t, start, mid, end, i, j);
      a[dest] := a[start + i - 1];
      i', j' := i - 1, j;
    } else {
      BackwardRight(s, t, start, mid, end, i, j);
      a[dest] := scratch[j - 1];
      i', j' := i, j - 1;
    }
    assert a[..] == t[dest := a[dest]];
  }

  /** Merges backward, with the right run copied to the scratch buffer. */
  method MergeBackward(a: array<Item>, start: nat, la: nat, lb: nat, scratch: array<Item>)
    requires start + la + lb <= a.Length && lb <= scratch.Length && a != scratch
    requires Sorted(a[start..start + la]) && Sorted(a[start + la..start + la + lb])
    modifies a, scratch
    ensures a[start..start + la + lb] == Merged(old(a[start..start + la]), old(a[start + la..start + la + lb]))
    ensures a[..start] == old(a[..start]) && a[start + la + lb..] == old(a[start + la + lb..])
  {
    hide Merged;
    hide Backward;
    hide Sorted;
    ghost var s := a[..];
    var mid, end := start + la, start + la + lb;
    CopyOut(a, mid, lb, scratch);
    var i: nat, j: nat := la, lb;
    BackwardStart(s, start, mid, end);
    while i > 0 && j > 0
      invariant i <= la && j <= lb && scratch[..lb] == s[mid..end]
      invariant Backward(s, a[..], start, mid, end, i, j)
      decreases i + j
    {
      i, j := BackwardOnce(a, start, mid, end, i, j, scratch, s);
    }
    ghost var t := a[..];
    assert scratch[0..j] == scratch[..lb][..j] == s[mid..mid + j];
    CopyIn(scratch, 0, j, a, start);
    BackwardEnd(s, t, a[..], start, mid, end, i, j);
  }

  lemma BackwardStart(s: seq<Item>, start: nat, mid: nat, end: nat)
    requires start <= mid <= end <= |s|
    ensures Backward(s, s, start, mid, end, mid - start, end - mid)
  {
  }

  lemma BackwardSame(s: seq<Item>, t: seq<Item>, start: nat, mid: nat, end: nat, i: nat, j: nat)
    requires Backward(s, t, start, mid, end, i, j) && i > 0
    ensures |t| == |s| && t[start + i - 1] == s[start + i - 1]
  {
    assert t[..start + i][start + i - 1] == s[..start + i][start + i - 1];
  }

  /** Merges two neighbouring sorted runs; the scratch buffer holds the shorter of the two. */
  method MergeRuns(a: array<Item>, start: nat, la: nat, lb: nat, scratch: array<Item>)
    requires start + la + lb <= a.Length && a != scratch && (if la <= lb then la else lb) <= scratch.Length
    requires Sorted(a[start..start + la]) && Sorted(a[start + la..start + la + lb])
    modifies a, scratch
    ensures Sorted(a[start..start + la + lb]) && Same(old(a[start..start + la + lb]), a[start..start + la + lb])
    ensures a[..start] == old(a[..start]) && a[start + la + lb..] == old(a[start + la + lb..])
  {
    hide Merged;
    hide Sorted;
    hide Same;
    ghost var left, right := a[start..start + la], a[start + la..start + la + lb];
    assert a[start..start + la + lb] == left + right;
    MergedSorted(left, right);
    MergedSame(left, right);
    if la <= lb {
      MergeForward(a, start, la, lb, scratch);
    } else {
      MergeBackward(a, start, la, lb, scratch);
    }
  }

  // ---------- runs ----------

  datatype Run = Run(start: nat, len: nat)

  const STACK_SIZE := 64
  const MIN_RUN := 16
  const SMALL := 24

  function End(r: Run): nat {
    r.start + r.len
  }

  /** The runs lie side by side from 0 to `curr`, and each is sorted. */
  ghost predicate Stacked(s: seq<Item>, stack: seq<Run>, curr: nat) {
    && curr <= |s| && |stack| <= STACK_SIZE
    && (if stack == [] then curr == 0 else stack[0].start == 0 && End(stack[|stack| - 1]) == curr)
    && (forall k :: 0 <= k < |stack| ==>
          stack[k].len > 0 && End(stack[k]) <= curr && Sorted(s[stack[k].start..End(stack[k])]))
    && (forall k :: 0 < k < |stack| ==> End(stack[k - 1]) == stack[k].start)
  }

  /** The stack after runs k and k + 1 became one. */
  function Joined(stack: seq<Run>, k: nat): seq<Run>
    requires k + 1 < |stack|
  {
    stack[..k] + [Run(stack[k].start, stack[k].len + stack[k + 1].len)] + stack[k + 2..]
  }

  lemma {:induction false} RunsAscend(s: seq<Item>, stack: seq<Run>, curr: nat, j: nat, k: nat)
    requires Stacked(s, stack, curr) && j < k < |stack|
    ensures End(stack[j]) <= stack[k].start
    decreases k
  {
    if j < k - 1 {
      RunsAscend(s, stack, curr, j, k - 1);
    }
    assert End(stack[k - 1]) == stack[k].start;
  }

  lemma SliceOutside(s: seq<Item>, t: seq<Item>, lo: nat, hi: nat, x: nat, y: nat)
    requires lo <= hi <= |s| == |t| && t[..lo] == s[..lo] && t[hi..] == s[hi..]
    requires x <= y <= |s| && (y <= lo || hi <= x)
    ensures t[x..y] == s[x..y]
  {
    forall i | x <= i < y
      ensures t[i] == s[i]
    {
      if y <= lo {
        assert t[i] == t[..lo][i] && s[i] == s[..lo][i];
      } else {
        assert t[i] == t[hi..][i - hi] && s[i] == s[hi..][i - hi];
      }
    }
  }

  lemma JoinedNeighbours(s: seq<Item>, stack: seq<Run>, curr: nat, k: nat, m: nat)
    requires Stacked(s, stack, curr) && k + 1 < |stack| && 0 < m < |stack| - 1
    ensures End(Joined(stack, k)[m - 1]) == Joined(stack, k)[m].start
  {
    hide Sorted;
    var joined := Joined(stack, k);
    assert End(stack[k]) == stack[k + 1].start;
    if m <= k {
      assert End(stack[m - 1]) == stack[m].start;
    } else {
      assert joined[m] == stack[m + 1] && End(stack[m]) == stack[m + 1].start;
    }
  }

  lemma JoinedStacked(s: seq<Item>, t: seq<Item>, stack: seq<Run>, curr: nat, k: nat)
    requires Stacked(s, stack, curr) && k + 1 < |stack| && |t| == |s|
    requires t[..stack[k].start] == s[..stack[k].start] && t[End(stack[k + 1])..] == s[End(stack[k + 1])..]
    requires Sorted(t[stack[k].start..End(stack[k + 1])])
    ensures Stacked(t, Joined(stack, k), curr)
  {
    hide Sorted;
    var joined, lo, hi := Joined(stack, k), stack[k].start, End(stack[k + 1]);
    assert End(stack[k]) == stack[k + 1].start;
    forall m | 0 <= m < |joined|
      ensures joined[m].len > 0 && End(joined[m]) <= curr && Sorted(t[joined[m].start..End(joined[m])])
    {
      if m < k {
        RunsAscend(s, stack, curr, m, k);
        SliceOutside(s, t, lo, hi, stack[m].start, End(stack[m]));
      } else if m > k {
        assert joined[m] == stack[m + 1];
        RunsAscend(s, stack, curr, k + 1, m + 1);
        SliceOutside(s, t, lo, hi, stack[m + 1].start, End(stack[m + 1]));
      }
    }
    forall m | 0 < m < |joined|
      ensures End(joined[m - 1]) == joined[m].start
    {
      JoinedNeighbours(s, stack, curr, k, m);
    }
  }

  /** Merges runs k and k + 1 of the stack. */
  method MergeAt(a: array<Item>, stack: seq<Run>, curr: nat, k: nat, scratch: array<Item>) returns (stack': seq<Run>)
    requires Stacked(a[..], stack, curr) && k + 1 < |stack| && a != scratch && a.Length <= 2 * scratch.Length
    modifies a, scratch
    ensures stack' == Joined(stack, k) && Stacked(a[..], stack', curr) && Same(old(a[..]), a[..])
    ensures curr <= a.Length && a[curr..] == old(a[curr..])
  {
    hide Sorted;
    hide Same;
    ghost var s := a[..];
    var left, right := stack[k], stack[k + 1];
    assert End(stack[k + 1 - 1]) == stack[k + 1].start;
    assert a[left.start..End(left)] == s[left.start..End(left)];
    MergeRuns(a, left.start, left.len, right.len, scratch);
    stack' := Joined(stack, k);
    ghost var t, lo, hi := a[..], left.start, End(right);
    JoinedStacked(s, t, stack, curr, k);
    WholeSame(s, t, lo, hi);
    SliceOutside(s, t, lo, hi, curr, |s|);
  }

  lemma WholeSame(s: seq<Item>, t: seq<Item>, lo: nat, hi: nat)
    requires lo <= hi <= |s| == |t| && Same(s[lo..hi], t[lo..hi]) && t[..lo] == s[..lo] && t[hi..] == s[hi..]
    ensures Same(s, t)
  {
    hide Same;
    SameWithin(s[..lo], s[lo..hi], t[lo..hi], s[hi..]);
    assert s == s[..lo] + s[lo..hi] + s[hi..];
    assert t == t[..lo] + t[lo..hi] + t[hi..];
  }

  lemma LongerRun(s: seq<Item>, lo: nat, n: nat)
    requires 0 < n && lo + n < |s|
    ensures Sorted(s[lo..lo + n]) && s[lo + n - 1].key <= s[lo + n].key ==> Sorted(s[lo..lo + n + 1])
    ensures Descending(s[lo..lo + n]) && s[lo + n - 1].key > s[lo + n].key ==> Descending(s[lo..lo + n + 1])
  {
    var u, v := s[lo..lo + n], s[lo..lo + n + 1];
    assert v == u + [s[lo + n]] && u[n - 1] == s[lo + n - 1];
  }

  lemma ShortRun(s: seq<Item>, lo: nat)
    requires lo < |s|
    ensures Sorted(s[lo..lo + 1]) && Descending(s[lo..lo + 1])
  {
  }

  /** The length of the run that starts at `curr`, turned around if it was descending. */
  method NaturalRun(a: array<Item>, curr: nat) returns (len: nat)
    requires curr < a.Length
    modifies a
    ensures 0 < len && curr + len <= a.Length && Sorted(a[curr..curr + len])
    ensures Same(old(a[..]), a[..]) && a[..curr] == old(a[..curr])
  {
    hide Same;
    hide Sorted;
    hide Descending;
    ghost var s := a[..];
    ShortRun(s, curr);
    assert a[curr..curr + 1] == s[curr..curr + 1];
    SameRefl(s);
    len := 1;
    if curr + 1 < a.Length {
      LongerRun(s, curr, 1);
      len := 2;
      if a[curr].key > a[curr + 1].key {
        while curr + len < a.Length && a[curr + len - 1].key > a[curr + len].key
          invariant 2 <= len && curr + len <= a.Length && Descending(s[curr..curr + len]) && a[..] == s
        {
          LongerRun(s, curr, len);
          len := len + 1;
        }
        assert a[curr..curr + len] == s[curr..curr + len];
        ReverseRun(a, curr, len);
        WholeSame(s, a[..], curr, curr + len);
        return;
      }
      while curr + len < a.Length && a[curr + len - 1].key <= a[curr + len].key
        invariant 2 <= len && curr + len <= a.Length && Sorted(s[curr..curr + len]) && a[..] == s
      {
        LongerRun(s, curr, len);
        len := len + 1;
      }
      assert a[curr..curr + len] == s[curr..curr + len];
    }
  }

  lemma SameRefl(s: seq<Item>)
    ensures Same(s, s)
  {
  }

  /** Finds the next run and makes it at least 16 long, as far as there are elements left. */
  method NextRun(a: array<Item>, curr: nat) returns (len: nat)
    requires curr < a.Length
    modifies a
    ensures 0 < len && curr + len <= a.Length && Sorted(a[curr..curr + len])
    ensures len >= MIN_RUN || curr + len == a.Length
    ensures Same(old(a[..]), a[..]) && a[..curr] == old(a[..curr])
  {
    hide Same;
    hide Sorted;
    len := NaturalRun(a, curr);
    if len < MIN_RUN && curr + len < a.Length {
      var force := if a.Length - curr > MIN_RUN then MIN_RUN else a.Length - curr;
      ghost var s := a[..];
      assert a[curr..curr + force] == s[curr..curr + force];
      InsertionSort(a, curr, force);
      WholeSame(s, a[..], curr, curr + force);
      SameTrans(old(a[..]), s, a[..]);
      len := force;
    }
  }

  lemma PushedStacked(s: seq<Item>, t: seq<Item>, stack: seq<Run>, curr: nat, len: nat)
    requires Stacked(s, stack, curr) && |stack| < STACK_SIZE && |t| == |s| && t[..curr] == s[..curr]
    requires 0 < len && curr + len <= |t| && Sorted(t[curr..curr + len])
    ensures Stacked(t, stack + [Run(curr, len)], curr + len)
  {
    hide Sorted;
    forall k | 0 <= k < |stack|
      ensures t[stack[k].start..End(stack[k])] == s[stack[k].start..End(stack[k])]
    {
      SliceOutside(s, t, curr, |s|, stack[k].start, End(stack[k]));
    }
  }

  /** Merges at the top of the stack until the lengths of its runs are balanced. */
  method Balance(a: array<Item>, runs: seq<Run>, curr: nat, scratch: array<Item>) returns (stack: seq<Run>)
    requires Stacked(a[..], runs, curr) && a != scratch && a.Length <= 2 * scratch.Length
    modifies a, scratch
    ensures Stacked(a[..], stack, curr) && |stack| <= |runs| && Same(old(a[..]), a[..])
  {
    hide Stacked;
    hide Same;
    stack := runs;
    SameRefl(a[..]);
    while |stack| >= 2
      invariant Stacked(a[..], stack, curr) && |stack| <= |runs| && Same(old(a[..]), a[..])
      decreases |stack|
    {
      ghost var s := a[..];
      var n := |stack| - 1;
      if |stack| >= 3 && stack[n - 2].len <= stack[n - 1].len + stack[n].len {
        if stack[n - 2].len < stack[n].len {
          stack := MergeAt(a, stack, curr, n - 2, scratch);
        } else {
          stack := MergeAt(a, stack, curr, n - 1, scratch);
        }
      } else if stack[n - 1].len <= stack[n].len {
        stack := MergeAt(a, stack, curr, n - 1, scratch);
      } else {
        return;
      }
      SameTrans(old(a[..]), s, a[..]);
    }
  }

  /** Merges all runs into one. */
  method Unwind(a: array<Item>, runs: seq<Run>, curr: nat, scratch: array<Item>) returns (stack: seq<Run>)
    requires Stacked(a[..], runs, curr) && a != scratch && a.Length <= 2 * scratch.Length
    modifies a, scratch
    ensures Stacked(a[..], stack, curr) && |stack| <= 1 && Same(old(a[..]), a[..])
  {
    hide Stacked;
    hide Same;
    stack := runs;
    SameRefl(a[..]);
    while |stack| > 1
      invariant Stacked(a[..], stack, curr) && Same(old(a[..]), a[..])
      decreases |stack|
    {
      ghost var s := a[..];
      var n := |stack| - 1;
      if |stack| >= 3 && stack[n - 2].len < stack[n].len {
        stack := MergeAt(a, stack, curr, n - 2, scratch);
      } else {
        stack := MergeAt(a, stack, curr, n - 1, scratch);
      }
      SameTrans(old(a[..]), s, a[..]);
    }
  }

  /** Sorts, keeping elements with equal keys in their order; without memory for the scratch buffer by insertion. */
  method Sort(a: array<Item>, memory: bool)
    modifies a
    ensures Sorted(a[..]) && Same(old(a[..]), a[..])
  {
    hide Stacked;
    hide Same;
    hide Sorted;
    if a.Length <= SMALL || !memory {
      InsertionSort(a, 0, a.Length);
      assert a[0..a.Length] == a[..] && old(a[0..a.Length]) == old(a[..]);
      return;
    }
    var scratch := new Item[a.Length / 2 + a.Length % 2](_ => Item(0, 0));
    var stack: seq<Run> := [];
    var curr := 0;
    SameRefl(a[..]);
    NothingStacked(a[..]);
    while curr < a.Length
      invariant curr <= a.Length && Stacked(a[..], stack, curr) && |stack| <= STACK_SIZE && Same(old(a[..]), a[..])
    {
      ghost var s := a[..];
      var len := NextRun(a, curr);
      SameTrans(old(a[..]), s, a[..]);
      KeptStacked(s, a[..], stack, curr);
      while |stack| >= STACK_SIZE
        invariant Stacked(a[..], stack, curr) && |stack| <= STACK_SIZE && Same(old(a[..]), a[..])
        invariant Sorted(a[curr..curr + len])
      {
        s := a[..];
        stack := MergeAt(a, stack, curr, |stack| - 2, scratch);
        SameTrans(old(a[..]), s, a[..]);
        SliceOfRest(s, a[..], curr, len);
      }
      PushedStacked(a[..], a[..], stack, curr, len);
      stack := stack + [Run(curr, len)];
      curr := curr + len;
      s := a[..];
      stack := Balance(a, stack, curr, scratch);
      SameTrans(old(a[..]), s, a[..]);
    }
    ghost var s := a[..];
    stack := Unwind(a, stack, curr, scratch);
    SameTrans(old(a[..]), s, a[..]);
    OneRun(a[..], stack);
  }

  lemma SliceOfRest(s: seq<Item>, t: seq<Item>, x: nat, n: nat)
    requires x + n <= |s| == |t| && s[x..] == t[x..]
    ensures s[x..x + n] == t[x..x + n]
  {
    assert s[x..x + n] == s[x..][..n];
  }

  lemma NothingStacked(s: seq<Item>)
    ensures Stacked(s, [], 0)
  {
  }

  lemma KeptStacked(s: seq<Item>, t: seq<Item>, stack: seq<Run>, curr: nat)
    requires Stacked(s, stack, curr) && |t| == |s| && t[..curr] == s[..curr]
    ensures Stacked(t, stack, curr)
  {
    hide Sorted;
    forall k | 0 <= k < |stack|
      ensures t[stack[k].start..End(stack[k])] == s[stack[k].start..End(stack[k])]
    {
      SliceOutside(s, t, curr, |s|, stack[k].start, End(stack[k]));
    }
  }

  lemma OneRun(s: seq<Item>, stack: seq<Run>)
    requires Stacked(s, stack, |s|) && |stack| <= 1
    ensures Sorted(s)
  {
    if stack != [] {
      assert s[0..|s|] == s;
    }
  }

  method CopyOut(a: array<Item>, lo: nat, n: nat, scratch: array<Item>)
    requires lo + n <= a.Length && n <= scratch.Length && a != scratch
    modifies scratch
    ensures scratch[..n] == a[lo..lo + n]
  {
    for i := 0 to n
      invariant scratch[..i] == a[lo..lo + i]
    {
      scratch[i] := a[lo + i];
    }
  }

  method CopyIn(scratch: array<Item>, from: nat, n: nat, a: array<Item>, lo: nat)
    requires from + n <= scratch.Length && lo + n <= a.Length && a != scratch
    modifies a
    ensures a[lo..lo + n] == scratch[from..from + n]
    ensures a[..lo] == old(a[..lo]) && a[lo + n..] == old(a[lo + n..])
  {
    for i := 0 to n
      invariant a[lo..lo + i] == scratch[from..from + i]
      invariant a[..lo] == old(a[..lo]) && a[lo + i..] == old(a[lo + i..])
    {
      ghost var before := a[..];
      a[lo + i] := scratch[from + i];
      assert a[lo..lo + i + 1] == before[lo..lo + i] + [scratch[from + i]];
      assert a[lo + i + 1..] == before[lo + i + 1..] == before[lo + i..][1..];
      assert old(a[lo + i + 1..]) == old(a[lo + i..])[1..];
    }
  }
}
