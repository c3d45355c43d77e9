/**
 The unstable sort: quicksort with a three-way partition around a median, that sorts short stretches by insertion and
 gives up to heapsort after too many bad partitions.
 */
module PdqSort {
  import opened Basics
  import opened StableSort

  ghost predicate Perm(s: seq<Item>, t: seq<Item>) {
    multiset(s) == multiset(t)
  }

  /** Only the elements between lo and hi have been moved, and only among each other. */
  ghost predicate Within(s: seq<Item>, t: seq<Item>, lo: nat, hi: nat) {
    lo <= hi <= |s| == |t| && Perm(s[lo..hi], t[lo..hi]) && t[..lo] == s[..lo] && t[hi..] == s[hi..]
  }

  lemma WithinRefl(s: seq<Item>, lo: nat, hi: nat)
    requires lo <= hi <= |s|
    ensures Within(s, s, lo, hi)
  {
  }

  lemma WithinTrans(s: seq<Item>, t: seq<Item>, u: seq<Item>, lo: nat, hi: nat)
    requires Within(s, t, lo, hi) && Within(t, u, lo, hi)
    ensures Within(s, u, lo, hi)
  {
  }

  lemma WithinWiden(s: seq<Item>, t: seq<Item>, lo: nat, hi: nat, lo': nat, hi': nat)
    requires Within(s, t, lo, hi) && lo' <= lo && hi <= hi' <= |s|
    ensures Within(s, t, lo', hi')
  {
    assert s[lo'..hi'] == s[..lo][lo'..] + s[lo..hi] + s[hi..][..hi' - hi];
    assert t[lo'..hi'] == t[..lo][lo'..] + t[lo..hi] + t[hi..][..hi' - hi];
    assert t[..lo'] == t[..lo][..lo'] && s[..lo'] == s[..lo][..lo'];
    assert t[hi'..] == t[hi..][hi' - hi..] && s[hi'..] == s[hi..][hi' - hi..];
  }

  lemma WithinLength(s: seq<Item>, t: seq<Item>, lo: nat, hi: nat)
    requires Within(s, t, lo, hi)
    ensures |s| == |t| && forall i :: 0 <= i < |s| && !(lo <= i < hi) ==> t[i] == s[i]
  {
    forall i | 0 <= i < |s| && !(lo <= i < hi)
      ensures t[i] == s[i]
    {
      if i < lo {
        assert t[i] == t[..lo][i] && s[i] == s[..lo][i];
      } else {
        assert t[i] == t[hi..][i - hi] && s[i] == s[hi..][i - hi];
      }
    }
  }

  /** Every element of the stretch was there before. */
  lemma WithinFrom(s: seq<Item>, t: seq<Item>, lo: nat, hi: nat, j: nat) returns (i: nat)
    requires Within(s, t, lo, hi) && lo <= j < hi
    ensures lo <= i < hi && s[i] == t[j]
  {
    assert t[lo..hi][j - lo] == t[j];
    assert t[j] in multiset(t[lo..hi]);
    assert t[j] in multiset(s[lo..hi]);
    var k :| 0 <= k < hi - lo && s[lo..hi][k] == t[j];
    i := lo + k;
  }

  lemma SameWithinPerm(s: seq<Item>, t: seq<Item>, lo: nat, hi: nat)
    requires lo <= hi <= |s| == |t| && Same(s[lo..hi], t[lo..hi]) && t[..lo] == s[..lo] && t[hi..] == s[hi..]
    ensures Within(s, t, lo, hi)
  {
    hide Same;
    forall x
      ensures multiset(s[lo..hi])[x] == multiset(t[lo..hi])[x]
    {
      SamePermutes(s[lo..hi], t[lo..hi], x);
    }
  }

  function Swapped(s: seq<Item>, i: nat, j: nat): (t: seq<Item>)
    requires i < |s| && j < |s|
    ensures |t| == |s|
  {
    s[i := s[j]][j := s[i]]
  }

  lemma SwapWithin(s: seq<Item>, i: nat, j: nat, lo: nat, hi: nat)
    requires lo <= i < hi <= |s| && lo <= j < hi
    ensures Within(s, Swapped(s, i, j), lo, hi)
  {
    var u := s[lo..hi];
    var v := u[i - lo := u[j - lo]][j - lo := u[i - lo]];
    assert multiset(v) == multiset(u);
    assert Swapped(s, i, j)[lo..hi] == v;
  }

  // ---------- heapsort ----------

  function Parent(i: nat): (p: nat)
    requires i > 0
    ensures p < i
  {
    (i - 1) / 2
  }

  predicate Under(s: seq<Item>, i: nat, p: nat)
    requires i < |s| && p < |s|
  {
    s[i].key <= s[p].key
  }

  /** Among `count` elements at lo, from the one at `from` on, no parent has a smaller key than its child. */
  predicate Heap(s: seq<Item>, lo: nat, from: nat, count: nat)
    requires lo + count <= |s|
  {
    forall i :: 0 < i < count && from <= Parent(i) ==> Under(s, lo + i, lo + Parent(i))
  }

  /** A heap but for the element at `root`, whose children are not above its parent. */
  predicate HeapBut(s: seq<Item>, lo: nat, from: nat, count: nat, root: nat)
    requires lo + count <= |s|
  {
    && (forall i :: 0 < i < count && from <= Parent(i) && Parent(i) != root ==> Under(s, lo + i, lo + Parent(i)))
    && (forall i :: 0 < i < count && Parent(i) == root && 0 < root && from <= Parent(root) ==>
          Under(s, lo + i, lo + Parent(root)))
  }

  /** No child of `root` is above `top`. */
  predicate OnTop(s: seq<Item>, lo: nat, count: nat, root: nat, top: nat)
    requires lo + count <= |s| && lo + top < |s|
  {
    forall i :: 0 < i < count && Parent(i) == root ==> Under(s, lo + i, lo + top)
  }

  lemma SiftStep(s: seq<Item>, lo: nat, from: nat, count: nat, root: nat, child: nat)
    requires lo + count <= |s| && root < child < count && Parent(child) == root && from <= root
    requires HeapBut(s, lo, from, count, root) && s[lo + child].key > s[lo + root].key
    requires OnTop(s, lo, count, root, child)
    ensures HeapBut(Swapped(s, lo + root, lo + child), lo, from, count, child)
  {
    var t := Swapped(s, lo + root, lo + child);
    forall i | 0 < i < count && from <= Parent(i) && Parent(i) != child
      ensures Under(t, lo + i, lo + Parent(i))
    {
      if Parent(i) != root {
        assert Under(s, lo + i, lo + Parent(i));
        assert i == root ==> Under(s, lo + child, lo + Parent(root));
      } else {
        assert Under(s, lo + i, lo + child);
      }
    }
    forall i | 0 < i < count && Parent(i) == child
      ensures Under(t, lo + i, lo + Parent(child))
    {
      assert Under(s, lo + i, lo + Parent(i));
    }
  }

  lemma SiftDone(s: seq<Item>, lo: nat, from: nat, count: nat, root: nat)
    requires lo + count <= |s| && root < count
    requires HeapBut(s, lo, from, count, root) && OnTop(s, lo, count, root, root)
    ensures Heap(s, lo, from, count)
  {
  }

  lemma {:induction false} HeapMax(s: seq<Item>, lo: nat, count: nat, i: nat)
    requires lo + count <= |s| && Heap(s, lo, 0, count) && i < count
    ensures s[lo + i].key <= s[lo].key
  {
    if i > 0 {
      assert Under(s, lo + i, lo + Parent(i));
      HeapMax(s, lo, count, Parent(i));
    }
  }

  /** Finds the larger child of an element that has children. */
  method LargerChild(a: array<Item>, lo: nat, count: nat, root: nat) returns (child: nat)
    requires lo + count <= a.Length && 2 * root + 1 < count
    ensures root < child < count && Parent(child) == root && OnTop(a[..], lo, count, root, child)
  {
    child := 2 * root + 1;
    if child + 1 < count && a[lo + child + 1].key > a[lo + child].key {
      child := child + 1;
    }
    forall i | 0 < i < count && Parent(i) == root
      ensures Under(a[..], lo + i, lo + child)
    {
      assert i == 2 * root + 1 || i == 2 * root + 2;
    }
  }

  lemma NoChild(s: seq<Item>, lo: nat, count: nat, root: nat)
    requires lo + count <= |s| && root < count && root >= count / 2
    ensures OnTop(s, lo, count, root, root)
  {
    forall i | 0 < i < count
      ensures Parent(i) != root
    {
      assert Parent(i) < count / 2;
    }
  }

  lemma TopStays(s: seq<Item>, lo: nat, count: nat, root: nat, child: nat)
    requires lo + count <= |s| && child < count && root < count
    requires OnTop(s, lo, count, root, child) && s[lo + child].key <= s[lo + root].key
    ensures OnTop(s, lo, count, root, root)
  {
    forall i | 0 < i < count && Parent(i) == root
      ensures Under(s, lo + i, lo + root)
    {
      assert Under(s, lo + i, lo + child);
    }
  }

  method Swap(a: array<Item>, i: nat, j: nat)
    requires i < a.Length && j < a.Length
    modifies a
    ensures a[..] == Swapped(old(a[..]), i, j)
  {
    a[i], a[j] := a[j], a[i];
  }

  /** The element at `from` sinks to its place among `count` elements at lo. */
  method SiftDown(a: array<Item>, lo: nat, from: nat, count: nat)
    requires lo + count <= a.Length && from < count && HeapBut(a[..], lo, from, count, from)
    modifies a
    ensures Heap(a[..], lo, from, count) && Within(old(a[..]), a[..], lo, lo + count)
  {
    hide HeapBut;
    hide Heap;
    hide OnTop;
    hide Within;
    hide Swapped;
    hide Parent;
    var root := from;
    ghost var start := a[..];
    WithinRefl(start, lo, lo + count);
    while root < count / 2
      invariant from <= root < count && HeapBut(a[..], lo, from, count, root)
      invariant Within(start, a[..], lo, lo + count)
    {
      ghost var t := a[..];
      var child := LargerChild(a, lo, count, root);
      if a[lo + child].key <= a[lo + root].key {
        TopStays(t, lo, count, root, child);
        SiftDone(t, lo, from, count, root);
        return;
      }
      SiftStep(t, lo, from, count, root, child);
      SwapWithin(t, lo + root, lo + child, lo, lo + count);
      Swap(a, lo + root, lo + child);
      WithinTrans(start, t, a[..], lo, lo + count);
      root := child;
    }
    NoChild(a[..], lo, count, root);
    SiftDone(a[..], lo, from, count, root);
  }

  lemma HeapSuffix(s: seq<Item>, lo: nat, from: nat, count: nat)
    requires lo + count <= |s| && 0 < from && Heap(s, lo, from, count)
    ensures HeapBut(s, lo, from - 1, count, from - 1)
  {
  }

  lemma LeavesAreHeap(s: seq<Item>, lo: nat, count: nat)
    requires lo + count <= |s|
    ensures Heap(s, lo, count / 2, count)
  {
    forall i | 0 < i < count
      ensures Parent(i) < count / 2
    {
    }
  }

  /** Makes a heap of a stretch. */
  method BuildHeap(a: array<Item>, lo: nat, n: nat)
    requires lo + n <= a.Length
    modifies a
    ensures Heap(a[..], lo, 0, n) && Within(old(a[..]), a[..], lo, lo + n)
  {
    hide Heap;
    hide HeapBut;
    hide Within;
    ghost var start := a[..];
    WithinRefl(start, lo, lo + n);
    LeavesAreHeap(start, lo, n);
    var i := n / 2;
    while i > 0
      invariant 0 <= i <= n / 2 && Heap(a[..], lo, i, n) && Within(start, a[..], lo, lo + n)
    {
      ghost var t := a[..];
      HeapSuffix(t, lo, i, n);
      SiftDown(a, lo, i - 1, n);
      WithinTrans(start, t, a[..], lo, lo + n);
      i := i - 1;
    }
  }

  /** The elements of a stretch from `m` on are in order, and none in front of them is larger. */
  predicate Settled(s: seq<Item>, lo: nat, m: nat, hi: nat) {
    lo <= m <= hi <= |s| && forall i, j :: lo <= i < j < hi && m <= j ==> s[i].key <= s[j].key
  }

  /** Where an element of the shrunken heap, or the one behind it, was before the swap. */
  lemma SettleFrom(s: seq<Item>, u: seq<Item>, lo: nat, m: nat, i: nat) returns (k: nat)
    requires lo < m <= |s| && Within(Swapped(s, lo, m - 1), u, lo, m - 1) && lo <= i < m
    ensures i < |u| && lo <= k < m && u[i] == s[k] && (i == m - 1 ==> k == lo)
  {
    hide Within;
    var t := Swapped(s, lo, m - 1);
    WithinLength(t, u, lo, m - 1);
    k := i;
    if i < m - 1 {
      k := WithinFrom(t, u, lo, m - 1, i);
    }
    k := if k == lo then m - 1 else if k == m - 1 then lo else k;
  }

  lemma SettleStep(s: seq<Item>, u: seq<Item>, lo: nat, m: nat, hi: nat)
    requires lo < m <= hi <= |s| && Settled(s, lo, m, hi) && Heap(s, lo, 0, m - lo)
    requires Within(Swapped(s, lo, m - 1), u, lo, m - 1)
    ensures Settled(u, lo, m - 1, hi)
  {
    hide Within;
    hide Heap;
    WithinLength(Swapped(s, lo, m - 1), u, lo, m - 1);
    forall i, j | lo <= i < j < hi && m - 1 <= j
      ensures u[i].key <= u[j].key
    {
      if i < m {
        var k := SettleFrom(s, u, lo, m, i);
        if j == m - 1 {
          var top := SettleFrom(s, u, lo, m, j);
          HeapMax(s, lo, m - lo, k - lo);
        }
      }
    }
  }

  lemma AfterSwap(s: seq<Item>, lo: nat, m: nat)
    requires lo + 1 < m <= |s| && Heap(s, lo, 0, m - lo)
    ensures HeapBut(Swapped(s, lo, m - 1), lo, 0, m - 1 - lo, 0)
  {
    var t := Swapped(s, lo, m - 1);
    forall i | 0 < i < m - 1 - lo && Parent(i) != 0
      ensures Under(t, lo + i, lo + Parent(i))
    {
      assert Under(s, lo + i, lo + Parent(i));
    }
  }

  /** Takes the largest element out of the heap and puts it behind it. */
  method PopMax(a: array<Item>, lo: nat, i: nat, hi: nat)
    requires 0 < i && lo + i < hi <= a.Length
    requires Heap(a[..], lo, 0, i + 1) && Settled(a[..], lo, lo + i + 1, hi)
    modifies a
    ensures Heap(a[..], lo, 0, i) && Settled(a[..], lo, lo + i, hi) && Within(old(a[..]), a[..], lo, hi)
  {
    hide Heap;
    hide HeapBut;
    hide Within;
    hide Settled;
    hide Swapped;
    ghost var s := a[..];
    SwapWithin(s, lo, lo + i, lo, hi);
    AfterSwap(s, lo, lo + i + 1);
    Swap(a, lo, lo + i);
    ghost var t := a[..];
    SiftDown(a, lo, 0, i);
    SettleStep(s, a[..], lo, lo + i + 1, hi);
    WithinWiden(t, a[..], lo, lo + i, lo, hi);
    WithinTrans(s, t, a[..], lo, hi);
  }

  method HeapSort(a: array<Item>, lo: nat, n: nat)
    requires lo + n <= a.Length
    modifies a
    ensures Sorted(a[lo..lo + n]) && Within(old(a[..]), a[..], lo, lo + n)
  {
    hide Heap;
    hide Within;
    hide Settled;
    ghost var start := a[..];
    BuildHeap(a, lo, n);
    if n <= 1 {
      return;
    }
    var i := n - 1;
    NothingSettled(a[..], lo, lo + n);
    while i > 0
      invariant 0 <= i < n && Heap(a[..], lo, 0, i + 1) && Settled(a[..], lo, lo + i + 1, lo + n)
      invariant Within(start, a[..], lo, lo + n)
    {
      ghost var s := a[..];
      PopMax(a, lo, i, lo + n);
      WithinTrans(start, s, a[..], lo, lo + n);
      i := i - 1;
    }
    AllSettled(a[..], lo, lo + n);
  }

  lemma NothingSettled(s: seq<Item>, lo: nat, hi: nat)
    requires lo <= hi <= |s|
    ensures Settled(s, lo, hi, hi)
  {
  }

  lemma AllSettled(s: seq<Item>, lo: nat, hi: nat)
    requires Settled(s, lo, lo + 1, hi)
    ensures Sorted(s[lo..hi])
  {
    var u := s[lo..hi];
    forall i, j | 0 <= i < j < |u|
      ensures u[i].key <= u[j].key
    {
      assert u[i] == s[lo + i] && u[j] == s[lo + j];
    }
  }

  // ---------- quicksort ----------

  /** At least two of the three keys, k among them, are not above k, and at least two not below. */
  predicate Median(k: int, u: int, v: int, w: int) {
    && (k == u || k == v || k == w)
    && (if u <= k then 1 else 0) + (if v <= k then 1 else 0) + (if w <= k then 1 else 0) >= 2
    && (if u >= k then 1 else 0) + (if v >= k then 1 else 0) + (if w >= k then 1 else 0) >= 2
  }

  method Median3(a: array<Item>, x: nat, y: nat, z: nat) returns (m: nat)
    requires x < a.Length && y < a.Length && z < a.Length
    ensures m in {x, y, z} && Median(a[m].key, a[x].key, a[y].key, a[z].key)
  {
    if a[x].key < a[y].key {
      if a[y].key < a[z].key {
        return y;
      }
      return if a[x].key < a[z].key then z else x;
    }
    if a[x].key < a[z].key {
      return x;
    }
    return if a[y].key < a[z].key then z else y;
  }

  /** The pivot of a long stretch: the median of the medians of three groups of three. */
  method Ninther(a: array<Item>, lo: nat, n: nat) returns (m: nat)
    requires n > 128 && lo + n <= a.Length
    ensures lo <= m < lo + n
  {
    var s, mid := n / 8, lo + n / 2;
    var m1 := Median3(a, lo, lo + s, lo + 2 * s);
    var m2 := Median3(a, mid - s, mid, mid + s);
    var m3 := Median3(a, lo + n - 1 - 2 * s, lo + n - 1 - s, lo + n - 1);
    m := Median3(a, m1, m2, m3);
  }

  /** Smaller keys than the pivot's up to lt, equal keys up to i, unknown ones up to gt, larger ones behind it. */
  predicate Parted(s: seq<Item>, lo: nat, lt: nat, i: nat, gt: int, hi: nat, pivot: int) {
    && lo <= lt < i <= gt + 1 <= hi <= |s|
    && (forall k :: lo <= k < lt ==> s[k].key < pivot)
    && (forall k :: lt <= k < i ==> s[k].key == pivot)
    && (forall k :: gt < k < hi ==> s[k].key > pivot)
  }

  /** Three-way partition around the first element of the stretch. */
  method Partition(a: array<Item>, lo: nat, hi: nat) returns (lt: nat, gt: nat)
    requires lo < hi <= a.Length
    modifies a
    ensures Within(old(a[..]), a[..], lo, hi) && lo <= lt <= gt < hi
    ensures Parted(a[..], lo, lt, gt + 1, gt, hi, old(a[lo]).key)
  {
    hide Within;
    ghost var start, pivot := a[..], a[lo].key;
    lt, gt := lo, hi - 1;
    var i: nat := lo + 1;
    WithinRefl(start, lo, hi);
    while i <= gt
      invariant Parted(a[..], lo, lt, i, gt, hi, pivot) && Within(start, a[..], lo, hi)
      decreases gt - i
    {
      ghost var s := a[..];
      if a[i].key < a[lt].key {
        SwapWithin(s, lt, i, lo, hi);
        Swap(a, lt, i);
        WithinTrans(start, s, a[..], lo, hi);
        lt, i := lt + 1, i + 1;
      } else if a[i].key > a[lt].key {
        SwapWithin(s, i, gt, lo, hi);
        Swap(a, i, gt);
        WithinTrans(start, s, a[..], lo, hi);
        gt := gt - 1;
      } else {
        i := i + 1;
      }
    }
  }

  /** In the stretch from lo to hi every pair is in order but for pairs between left and right. */
  predicate Framed(s: seq<Item>, lo: nat, left: nat, right: nat, hi: nat) {
    && lo <= left <= right <= hi <= |s|
    && forall i, j :: lo <= i < j < hi && (i < left || right <= j) ==> s[i].key <= s[j].key
  }

  /** Moving elements between left and right among each other leaves the frame as it is. */
  lemma FramedKept(s: seq<Item>, t: seq<Item>, lo: nat, left: nat, right: nat, hi: nat)
    requires Framed(s, lo, left, right, hi) && Within(s, t, left, right)
    ensures Framed(t, lo, left, right, hi)
  {
    hide Within;
    WithinLength(s, t, left, right);
    forall i, j | lo <= i < j < hi && (i < left || right <= j)
      ensures t[i].key <= t[j].key
    {
      var i', j' := i, j;
      if left <= i < right {
        i' := WithinFrom(s, t, left, right, i);
      }
      if left <= j < right {
        j' := WithinFrom(s, t, left, right, j);
      }
    }
  }

  lemma FrameLeftDone(s: seq<Item>, lo: nat, left: nat, lt: nat, gt: nat, right: nat, hi: nat, pivot: int)
    requires Framed(s, lo, left, right, hi) && Parted(s, left, lt, gt + 1, gt, right, pivot)
    requires Sorted(s[left..lt])
    ensures Framed(s, lo, gt + 1, right, hi)
  {
    forall i, j | left <= i < j < lt
      ensures s[i].key <= s[j].key
    {
      assert s[i] == s[left..lt][i - left] && s[j] == s[left..lt][j - left];
    }
  }

  lemma FrameRightDone(s: seq<Item>, lo: nat, left: nat, lt: nat, gt: nat, right: nat, hi: nat, pivot: int)
    requires Framed(s, lo, left, right, hi) && Parted(s, left, lt, gt + 1, gt, right, pivot)
    requires Sorted(s[gt + 1..right])
    ensures Framed(s, lo, left, lt, hi)
  {
    forall i, j | gt + 1 <= i < j < right
      ensures s[i].key <= s[j].key
    {
      assert s[i] == s[gt + 1..right][i - gt - 1] && s[j] == s[gt + 1..right][j - gt - 1];
    }
  }

  /** Sorting one part leaves the partition as it is. */
  lemma PartedKept(s: seq<Item>, t: seq<Item>, lo: nat, lt: nat, gt: nat, hi: nat, pivot: int, x: nat, y: nat)
    requires Parted(s, lo, lt, gt + 1, gt, hi, pivot) && Within(s, t, x, y)
    requires (x == lo && y == lt) || (x == gt + 1 && y == hi)
    ensures Parted(t, lo, lt, gt + 1, gt, hi, pivot)
  {
    hide Within;
    WithinLength(s, t, x, y);
    forall k | x <= k < y
      ensures if x == lo && y == lt then t[k].key < pivot else t[k].key > pivot
    {
      var j := WithinFrom(s, t, x, y, k);
    }
  }

  lemma FrameFull(s: seq<Item>, lo: nat, left: nat, right: nat, hi: nat)
    requires Framed(s, lo, left, right, hi) && Sorted(s[left..right])
    ensures Sorted(s[lo..hi])
  {
    forall i, j | left <= i < j < right
      ensures s[i].key <= s[j].key
    {
      assert s[i] == s[left..right][i - left] && s[j] == s[left..right][j - left];
    }
    var u := s[lo..hi];
    forall i, j | 0 <= i < j < |u|
      ensures u[i].key <= u[j].key
    {
      assert u[i] == s[lo + i] && u[j] == s[lo + j];
    }
  }

  const INSERTION_LIMIT := 24
  const NINTHER_LIMIT := 128

  /** Chooses a pivot and partitions the stretch around it. */
  method PartitionAround(a: array<Item>, lo: nat, hi: nat) returns (lt: nat, gt: nat, ghost pivot: int)
    requires lo + INSERTION_LIMIT < hi <= a.Length
    modifies a
    ensures Within(old(a[..]), a[..], lo, hi) && lo <= lt <= gt < hi
    ensures Parted(a[..], lo, lt, gt + 1, gt, hi, pivot)
  {
    hide Within;
    hide Parted;
    ghost var start := a[..];
    var n := hi - lo;
    var p;
    if n > NINTHER_LIMIT {
      p := Ninther(a, lo, n);
    } else {
      p := Median3(a, lo, lo + n / 2, lo + n - 1);
    }
    SwapWithin(start, lo, p, lo, hi);
    Swap(a, lo, p);
    ghost var s := a[..];
    pivot := a[lo].key;
    lt, gt := Partition(a, lo, hi);
    WithinTrans(start, s, a[..], lo, hi);
  }

  /**
   Sorts a stretch. Only the smaller part of a partition is sorted by a recursive call, so `depth`, the depth of
   recursion, is at most the logarithm of the length.
   */
  method Loop(a: array<Item>, lo: nat, n: nat, allowed: int, ghost depth: nat)
    requires lo + n <= a.Length && n < Pow2(depth)
    modifies a
    ensures Sorted(a[lo..lo + n]) && Within(old(a[..]), a[..], lo, lo + n)
    decreases depth
  {
    hide Sorted;
    hide Within;
    hide Framed;
    hide Parted;
    hide Same;
    hide Pow2;
    var left: nat, right: nat, bad := lo, lo + n, allowed;
    ghost var start := a[..];
    WithinRefl(start, lo, lo + n);
    FrameStart(start, lo, lo + n);
    while right - left > INSERTION_LIMIT
      invariant lo <= left <= right <= lo + n && Framed(a[..], lo, left, right, lo + n)
      invariant Within(start, a[..], lo, lo + n)
      decreases right - left
    {
      ghost var s := a[..];
      if bad <= 0 {
        HeapSort(a, left, right - left);
        Finish(start, s, a[..], lo, left, right, lo + n);
        return;
      }
      var lt, gt;
      ghost var pivot;
      lt, gt, pivot := PartitionAround(a, left, right);
      PartitionDone(start, s, a[..], lo, left, right, lo + n);
      var size := right - left;
      var leftSize, rightSize := lt - left, right - (gt + 1);
      if leftSize < size / 8 || rightSize < size / 8 {
        bad := bad - 1;
      }
      s := a[..];
      if leftSize < rightSize {
        HalfDepth(leftSize, n, depth);
        if leftSize > 1 {
          Loop(a, left, leftSize, bad, depth - 1);
        } else {
          ShortSorted(a[..], left, lt);
          WithinRefl(s, left, lt);
        }
        LeftPartDone(start, s, a[..], lo, left, lt, gt, right, lo + n, pivot);
        left := gt + 1;
      } else {
        HalfDepth(rightSize, n, depth);
        if rightSize > 1 {
          Loop(a, gt + 1, rightSize, bad, depth - 1);
        } else {
          ShortSorted(a[..], gt + 1, right);
          WithinRefl(s, gt + 1, right);
        }
        RightPartDone(start, s, a[..], lo, left, lt, gt, right, lo + n, pivot);
        right := lt;
      }
    }
    ghost var s := a[..];
    assert s[left..right] == a[left..right];
    InsertionSort(a, left, right - left);
    SameWithinPerm(s, a[..], left, right);
    Finish(start, s, a[..], lo, left, right, lo + n);
  }

  lemma PartitionDone(start: seq<Item>, s: seq<Item>, t: seq<Item>, lo: nat, left: nat, right: nat, hi: nat)
    requires Framed(s, lo, left, right, hi) && Within(start, s, lo, hi) && Within(s, t, left, right)
    ensures Framed(t, lo, left, right, hi) && Within(start, t, lo, hi)
  {
    hide Within;
    FramedKept(s, t, lo, left, right, hi);
    WithinWiden(s, t, left, right, lo, hi);
    WithinTrans(start, s, t, lo, hi);
  }

  lemma FrameStart(s: seq<Item>, lo: nat, hi: nat)
    requires lo <= hi <= |s|
    ensures Framed(s, lo, lo, hi, hi)
  {
  }

  lemma ShortSorted(s: seq<Item>, lo: nat, hi: nat)
    requires lo <= hi <= |s| && hi - lo <= 1
    ensures Sorted(s[lo..hi])
  {
  }

  lemma HalfDepth(m: nat, n: nat, depth: nat)
    requires 2 * m < n < Pow2(depth)
    ensures depth > 0 && m < Pow2(depth - 1)
  {
  }

  lemma Finish(start: seq<Item>, s: seq<Item>, t: seq<Item>, lo: nat, left: nat, right: nat, hi: nat)
    requires Framed(s, lo, left, right, hi) && Within(start, s, lo, hi) && Within(s, t, left, right)
    requires lo <= left <= right <= hi <= |s| == |t| && Sorted(t[left..right])
    ensures Sorted(t[lo..hi]) && Within(start, t, lo, hi)
  {
    hide Within;
    hide Sorted;
    FramedKept(s, t, lo, left, right, hi);
    FrameFull(t, lo, left, right, hi);
    WithinWiden(s, t, left, right, lo, hi);
    WithinTrans(start, s, t, lo, hi);
  }

  lemma LeftPartDone(start: seq<Item>, s: seq<Item>, t: seq<Item>, lo: nat, left: nat, lt: nat, gt: nat, right: nat,
                     hi: nat, pivot: int)
    requires Framed(s, lo, left, right, hi) && Within(start, s, lo, hi) && Within(s, t, left, lt)
    requires Parted(s, left, lt, gt + 1, gt, right, pivot) && lt <= |t| && Sorted(t[left..lt])
    ensures Framed(t, lo, gt + 1, right, hi) && Within(start, t, lo, hi)
  {
    hide Within;
    hide Sorted;
    PartedKept(s, t, left, lt, gt, right, pivot, left, lt);
    WithinWiden(s, t, left, lt, left, right);
    FramedKept(s, t, lo, left, right, hi);
    FrameLeftDone(t, lo, left, lt, gt, right, hi, pivot);
    WithinWiden(s, t, left, lt, lo, hi);
    WithinTrans(start, s, t, lo, hi);
  }

  lemma RightPartDone(start: seq<Item>, s: seq<Item>, t: seq<Item>, lo: nat, left: nat, lt: nat, gt: nat, right: nat,
                      hi: nat, pivot: int)
    requires Framed(s, lo, left, right, hi) && Within(start, s, lo, hi) && gt < right && Within(s, t, gt + 1, right)
    requires Parted(s, left, lt, gt + 1, gt, right, pivot) && right <= |t| && Sorted(t[gt + 1..right])
    ensures Framed(t, lo, left, lt, hi) && Within(start, t, lo, hi)
  {
    hide Within;
    hide Sorted;
    PartedKept(s, t, left, lt, gt, right, pivot, gt + 1, right);
    WithinWiden(s, t, gt + 1, right, left, right);
    FramedKept(s, t, lo, left, right, hi);
    FrameRightDone(t, lo, left, lt, gt, right, hi, pivot);
    WithinWiden(s, t, gt + 1, right, lo, hi);
    WithinTrans(start, s, t, lo, hi);
  }

  /** Sorts the array; the result is a permutation of what it held. */
  method QSort(a: array<Item>)
    modifies a
    ensures Sorted(a[..]) && Perm(old(a[..]), a[..])
  {
    if a.Length <= 1 {
      return;
    }
    Loop(a, 0, a.Length, 2 * Log2(a.Length), Log2(a.Length) + 1);
    assert a[0..a.Length] == a[..] && old(a[..])[0..a.Length] == old(a[..]);
  }
}
