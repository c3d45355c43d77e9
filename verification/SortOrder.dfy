/**
 What the sorts mean for an arbitrary comparator. They are modelled on integer keys; here every total preorder on the
 elements of an array is given by such a key, so that what holds for keys holds for the comparator.
 */
module SortOrder {
  import opened StableSort
  import PdqSort

  /** What a comparator owes the sort: any two elements compare, and the order carries over. */
  ghost predicate Orders<T>(le: (T, T) -> bool, s: seq<T>) {
    && (forall x, y :: x in s && y in s ==> le(x, y) || le(y, x))
    && (forall x, y, z :: x in s && y in s && z in s && le(x, y) && le(y, z) ==> le(x, z))
  }

  /** How many elements of the sequence are not after x. */
  function Rank<T>(le: (T, T) -> bool, s: seq<T>, x: T): nat {
    if s == [] then 0 else (if le(s[0], x) then 1 else 0) + Rank(le, s[1..], x)
  }

  lemma {:induction false} RankUp<T>(le: (T, T) -> bool, s: seq<T>, x: T, y: T)
    requires forall z :: z in s && le(z, x) ==> le(z, y)
    ensures Rank(le, s, x) <= Rank(le, s, y)
    ensures (exists z :: z in s && !le(z, x) && le(z, y)) ==> Rank(le, s, x) < Rank(le, s, y)
  {
    if s != [] {
      assert s[0] in s;
      assert forall z :: z in s <==> z == s[0] || z in s[1..];
      RankUp(le, s[1..], x, y);
    }
  }

  /** The rank is a key for the comparator. */
  lemma RankOrders<T>(le: (T, T) -> bool, s: seq<T>, x: T, y: T)
    requires Orders(le, s) && x in s && y in s
    ensures le(x, y) <==> Rank(le, s, x) <= Rank(le, s, y)
  {
    if le(x, y) {
      RankUp(le, s, x, y);
    } else {
      assert le(x, x) && le(y, x);
      RankUp(le, s, y, x);
    }
  }

  /** The elements as the sorts see them: their key, and the index they came from. */
  function Keyed<T>(le: (T, T) -> bool, s: seq<T>): seq<Item> {
    seq(|s|, i requires 0 <= i < |s| => Item(Rank(le, s, s[i]), i))
  }

  /** The arrangement of s that t describes is ordered by the comparator and uses every element once. */
  ghost predicate Arranged<T>(le: (T, T) -> bool, s: seq<T>, t: seq<Item>) {
    && |t| == |s| && (forall k :: 0 <= k < |t| ==> 0 <= t[k].payload < |s|)
    && forall k, l :: 0 <= k < l < |t| ==> t[k].payload != t[l].payload && le(s[t[k].payload], s[t[l].payload])
  }

  lemma FromKeyed<T>(le: (T, T) -> bool, s: seq<T>, t: seq<Item>, k: nat)
    requires multiset(Keyed(le, s)) == multiset(t) && k < |t|
    ensures 0 <= t[k].payload < |s| && t[k] == Keyed(le, s)[t[k].payload]
  {
    assert t[k] in multiset(t);
    assert t[k] in Keyed(le, s);
  }

  /** A sorted permutation of the keyed elements is an arrangement the comparator calls sorted. */
  lemma SortedByComparator<T>(le: (T, T) -> bool, s: seq<T>, t: seq<Item>)
    requires Orders(le, s) && Sorted(t) && PdqSort.Perm(Keyed(le, s), t)
    ensures Arranged(le, s, t)
  {
    assert |multiset(t)| == |multiset(Keyed(le, s))|;
    forall k: nat | k < |t|
      ensures 0 <= t[k].payload < |s|
    {
      FromKeyed(le, s, t, k);
    }
    forall k: nat, l: nat | k < l < |t|
      ensures t[k].payload != t[l].payload && le(s[t[k].payload], s[t[l].payload])
    {
      FromKeyed(le, s, t, k);
      FromKeyed(le, s, t, l);
      RankOrders(le, s, s[t[k].payload], s[t[l].payload]);
      OnceEach(le, s, t, k, l);
    }
  }

  lemma OnceEach<T>(le: (T, T) -> bool, s: seq<T>, t: seq<Item>, k: nat, l: nat)
    requires multiset(Keyed(le, s)) == multiset(t) && k < l < |t|
    ensures t[k] != t[l]
  {
    FromKeyed(le, s, t, k);
    OnceKeyed(le, s, t[k].payload);
    CountTwice(t, k, l);
  }

  lemma OnceKeyed<T>(le: (T, T) -> bool, s: seq<T>, i: nat)
    requires i < |s|
    ensures multiset(Keyed(le, s))[Keyed(le, s)[i]] == 1
  {
    var u := Keyed(le, s);
    assert u == u[..i] + [u[i]] + u[i + 1..] && u[i] !in u[..i] && u[i] !in u[i + 1..];
  }

  lemma CountTwice(t: seq<Item>, k: nat, l: nat)
    requires k < l < |t|
    ensures t[k] == t[l] ==> multiset(t)[t[k]] >= 2
  {
    assert t == t[..l] + [t[l]] + t[l + 1..];
    assert t[..l][k] == t[k] && t[k] in multiset(t[..l]);
  }

  // ---------- stability ----------

  predicate Ascending(s: seq<Item>) {
    forall i, j :: 0 <= i < j < |s| ==> s[i].payload < s[j].payload
  }

  lemma {:induction false} OnlyHas(s: seq<Item>, key: int)
    ensures forall x :: x in Only(s, key) <==> x in s && x.key == key
  {
    if s != [] {
      OnlyHas(s[1..], key);
      assert forall x :: x in s <==> x == s[0] || x in s[1..];
      var rest := Only(s[1..], key);
      assert forall x :: x in Only(s, key) <==> (s[0].key == key && x == s[0]) || x in rest;
    }
  }

  lemma {:induction false} OnlyAscending(s: seq<Item>, key: int)
    requires Ascending(s)
    ensures Ascending(Only(s, key))
  {
    if s != [] {
      OnlyAscending(s[1..], key);
      OnlyHas(s[1..], key);
      var rest := Only(s[1..], key);
      forall j | 0 <= j < |rest|
        ensures s[0].payload < rest[j].payload
      {
        assert rest[j] in rest;
      }
    }
  }

  /** Two elements with one key keep their order among the elements with that key. */
  lemma KeepsPlaces(s: seq<Item>, k: nat, l: nat) returns (a: nat, b: nat)
    requires k < l < |s| && s[k].key == s[l].key
    ensures a < b < |Only(s, s[k].key)| && Only(s, s[k].key)[a] == s[k] && Only(s, s[k].key)[b] == s[l]
  {
    var key := s[k].key;
    assert s == s[..l] + s[l..];
    OnlyJoin(s[..l], s[l..], key);
    OnlyHas(s[..l], key);
    assert s[..l][k] == s[k];
    a :| 0 <= a < |Only(s[..l], key)| && Only(s[..l], key)[a] == s[k];
    b := |Only(s[..l], key)|;
    assert Only(s[l..], key)[0] == s[l];
  }

  /** The stable sort leaves elements that the comparator does not tell apart in the order they came in. */
  lemma StableByComparator<T>(le: (T, T) -> bool, s: seq<T>, t: seq<Item>)
    requires Orders(le, s) && Sorted(t) && Same(Keyed(le, s), t)
    ensures Arranged(le, s, t)
    ensures forall k, l :: 0 <= k < l < |t| && le(s[t[l].payload], s[t[k].payload]) ==> t[k].payload < t[l].payload
  {
    hide Rank;
    hide Only;
    var u := Keyed(le, s);
    forall x: Item
      ensures multiset(u)[x] == multiset(t)[x]
    {
      SamePermutes(u, t, x);
    }
    SortedByComparator(le, s, t);
    forall k: nat, l: nat | k < l < |t| && le(s[t[l].payload], s[t[k].payload])
      ensures t[k].payload < t[l].payload
    {
      FromKeyed(le, s, t, k);
      FromKeyed(le, s, t, l);
      RankOrders(le, s, s[t[l].payload], s[t[k].payload]);
      var a, b := KeepsPlaces(t, k, l);
      OnlyAscending(u, t[k].key);
      assert Only(u, t[k].key) == Only(t, t[k].key);
    }
  }
}
