/**
 The shared list of the lock-free hash map: every element and every bucket sentinel in one list,
 ordered by split-order key. Nodes are removed by marking them first and unlinking them later.

 `rank` is not in the program. It gives every node that was ever linked a place in one total order: a new
 node goes right behind the predecessor it was linked to. Marked nodes keep their place, so the
 nodes a stale pointer jumps over can be named.
 */
module LockFreeList {
  import opened Basics
  import opened SplitOrder

  type Id = nat

  datatype Key = Sentinel(bucket: bv64) | Regular(hash: bv64, name: nat)

  datatype Node = Node(key: Key, next: Option<Id>, marked: bool, rank: real)

  type Nodes = map<Id, Node>

  function So(key: Key): nat {
    match key
    case Sentinel(bucket) => Value(SentinelKey(bucket))
    case Regular(hash, _) => Value(RegularKey(hash))
  }

  predicate ValidKey(key: Key) {
    key.Sentinel? ==> key.bucket & REGULAR_BIT == 0
  }

  /** The comparison of the search: a sentinel is recognised by its split-order key alone. */
  predicate Matches(node: Key, target: Key) {
    So(node) == So(target) && (target.Sentinel? || (node.Regular? && node == target))
  }

  lemma MatchesIsEquality(node: Key, target: Key)
    requires ValidKey(node) && ValidKey(target)
    ensures Matches(node, target) <==> node == target
  {
    hide Reverse;
    hide Value;
    if target.Sentinel? && So(node) == So(target) {
      match node
      case Sentinel(b) =>
        SentinelInjective(b, target.bucket);
      case Regular(hash, _) =>
        RegularKeysAreOdd(hash, target.bucket);
        ValueBits(RegularKey(hash));
        ValueBits(SentinelKey(target.bucket));
    }
  }

  // ---------- the shape of the list ----------

  predicate Before(nodes: Nodes, x: Id, y: Id)
    requires x in nodes && y in nodes
  {
    nodes[x].rank < nodes[y].rank
  }

  /** All nodes behind x and before y, or all nodes behind x if there is no y, are marked. */
  predicate OnlyMarkedBetween(nodes: Nodes, x: Id, y: Option<Id>)
    requires x in nodes && (y.Some? ==> y.value in nodes)
  {
    forall z :: z in nodes && Before(nodes, x, z) && (y.Some? ==> Before(nodes, z, y.value)) ==> nodes[z].marked
  }

  predicate LinkOk(nodes: Nodes, x: Id, y: Option<Id>)
    requires x in nodes
  {
    && (y.Some? ==> y.value in nodes && Before(nodes, x, y.value))
    && OnlyMarkedBetween(nodes, x, y)
  }

  predicate Linked(nodes: Nodes) {
    forall x :: x in nodes ==> LinkOk(nodes, x, nodes[x].next)
  }

  predicate Ordered(nodes: Nodes) {
    forall x, z :: x in nodes && z in nodes && Before(nodes, x, z) && !nodes[z].marked ==>
      So(nodes[x].key) <= So(nodes[z].key)
  }

  predicate RisesAt(nodes: Nodes, x: Id)
    requires x in nodes
  {
    var next := nodes[x].next;
    next.Some? && next.value in nodes ==> So(nodes[x].key) <= So(nodes[next.value].key)
  }

  /** No link, of a marked node or an unmarked one, leads to a smaller split-order key. */
  predicate Rising(nodes: Nodes) {
    forall x :: x in nodes ==> RisesAt(nodes, x)
  }

  predicate SameLiveKey(x: Node, y: Node) {
    x.key == y.key && !x.marked && !y.marked
  }

  predicate Distinct(nodes: Nodes) {
    && (forall x, y :: x in nodes && y in nodes && nodes[x].rank == nodes[y].rank ==> x == y)
    && (forall x, y :: x in nodes && y in nodes && SameLiveKey(nodes[x], nodes[y]) ==> x == y)
  }

  predicate KeysOk(nodes: Nodes) {
    forall x :: x in nodes ==> ValidKey(nodes[x].key) && (nodes[x].key.Sentinel? ==> !nodes[x].marked)
  }

  predicate Chain(nodes: Nodes) {
    Linked(nodes) && Ordered(nodes) && Rising(nodes) && Distinct(nodes) && KeysOk(nodes)
  }

  /** No unmarked node holds the key. */
  predicate Absent(nodes: Nodes, key: Key) {
    forall x :: x in nodes && !nodes[x].marked ==> nodes[x].key != key
  }

  /** No unmarked node in front of x, or anywhere if there is no x, holds the key. */
  predicate NoneBefore(nodes: Nodes, x: Option<Id>, key: Key)
    requires x.Some? ==> x.value in nodes
  {
    forall z :: z in nodes && !nodes[z].marked && (x.Some? ==> Before(nodes, z, x.value)) ==> nodes[z].key != key
  }

  /** As long as x is unmarked, a search for the key may start from x without missing the key. */
  predicate Clean(nodes: Nodes, x: Id, key: Key)
    requires x in nodes
  {
    !nodes[x].marked && So(nodes[x].key) <= So(key) ==> NoneBefore(nodes, Some(x), key)
  }

  /** A search for the key that has got past node p. */
  predicate Passed(nodes: Nodes, p: Id, key: Key) {
    p in nodes && So(nodes[p].key) <= So(key) && nodes[p].key != key && Clean(nodes, p, key)
  }

  /** The key cannot be at x or behind it. */
  predicate Beyond(nodes: Nodes, x: Option<Id>, key: Key)
    requires x.Some? ==> x.value in nodes
  {
    x.Some? ==> So(nodes[x.value].key) > So(key)
  }

  /** What a search learns from reading the link of a node it got past while that node was unmarked. */
  lemma NoneBeforeNext(nodes: Nodes, p: Id, key: Key)
    requires Chain(nodes) && Passed(nodes, p, key) && !nodes[p].marked
    ensures LinkOk(nodes, p, nodes[p].next) && NoneBefore(nodes, nodes[p].next, key)
  {
    hide So;
    assert LinkOk(nodes, p, nodes[p].next);
    var next := nodes[p].next;
    forall z | z in nodes && !nodes[z].marked && (next.Some? ==> Before(nodes, z, next.value))
      ensures nodes[z].key != key
    {
      assert !Before(nodes, p, z);
      if z != p {
        assert Before(nodes, z, p);
      }
    }
  }

  lemma AbsentIfBeyond(nodes: Nodes, x: Option<Id>, key: Key)
    requires Chain(nodes) && (x.Some? ==> x.value in nodes)
    requires NoneBefore(nodes, x, key) && Beyond(nodes, x, key)
    ensures Absent(nodes, key)
  {
    hide So;
    forall z | z in nodes && !nodes[z].marked
      ensures nodes[z].key != key
    {
      if x.Some? && z != x.value && !Before(nodes, z, x.value) {
        assert Before(nodes, x.value, z);
      }
    }
  }

  lemma NoneBeforeVisited(nodes: Nodes, c: Id, key: Key)
    requires Chain(nodes) && c in nodes && NoneBefore(nodes, Some(c), key)
    requires nodes[c].marked || nodes[c].key != key
    ensures LinkOk(nodes, c, nodes[c].next) && NoneBefore(nodes, nodes[c].next, key)
  {
    hide So;
    var next := nodes[c].next;
    assert LinkOk(nodes, c, next);
    forall z | z in nodes && !nodes[z].marked && (next.Some? ==> Before(nodes, z, next.value))
      ensures nodes[z].key != key
    {
      assert !Before(nodes, c, z);
      if z != c {
        assert Before(nodes, z, c);
      }
    }
  }

  // ---------- the three writes ----------

  /** A place right behind p. */
  predicate RankBehind(nodes: Nodes, p: Id, rank: real)
    requires p in nodes
  {
    nodes[p].rank < rank && forall z :: z in nodes && Before(nodes, p, z) ==> rank < nodes[z].rank
  }

  predicate CanLink(nodes: Nodes, p: Id, id: Id, key: Key, rank: real) {
    && Passed(nodes, p, key) && !nodes[p].marked && id !in nodes && ValidKey(key)
    && (nodes[p].next.Some? ==> nodes[p].next.value in nodes)
    && Beyond(nodes, nodes[p].next, key) && RankBehind(nodes, p, rank)
  }

  function Link(nodes: Nodes, p: Id, id: Id, key: Key, rank: real): Nodes
    requires p in nodes && id !in nodes
  {
    nodes[id := Node(key, nodes[p].next, false, rank)][p := nodes[p].(next := Some(id))]
  }

  predicate CanUnlink(nodes: Nodes, p: Id, c: Id) {
    p in nodes && c in nodes && !nodes[p].marked && nodes[p].next == Some(c) && nodes[c].marked
  }

  function Unlink(nodes: Nodes, p: Id, c: Id): Nodes
    requires p in nodes && c in nodes
  {
    nodes[p := nodes[p].(next := nodes[c].next)]
  }

  predicate CanMark(nodes: Nodes, v: Id) {
    v in nodes && !nodes[v].marked && nodes[v].key.Regular?
  }

  function Mark(nodes: Nodes, v: Id): Nodes
    requires v in nodes
  {
    nodes[v := nodes[v].(marked := true)]
  }

  lemma LinkAbsent(nodes: Nodes, p: Id, id: Id, key: Key, rank: real)
    requires Chain(nodes) && CanLink(nodes, p, id, key, rank)
    ensures Absent(nodes, key)
  {
    hide *;
    assert Passed(nodes, p, key) && !nodes[p].marked && (nodes[p].next.Some? ==> nodes[p].next.value in nodes) &&
      Beyond(nodes, nodes[p].next, key) by { CanLinkParts(nodes, p, id, key, rank); }
    NoneBeforeNext(nodes, p, key);
    AbsentIfBeyond(nodes, nodes[p].next, key);
  }

  lemma CanLinkParts(nodes: Nodes, p: Id, id: Id, key: Key, rank: real)
    requires CanLink(nodes, p, id, key, rank)
    ensures Passed(nodes, p, key) && p in nodes && !nodes[p].marked && id !in nodes
    ensures nodes[p].next.Some? ==> nodes[p].next.value in nodes
    ensures Beyond(nodes, nodes[p].next, key)
  {
  }

  /** No link other than p's own jumps over the place right behind an unmarked node p. */
  lemma LinkOfOther(nodes: Nodes, p: Id, id: Id, key: Key, rank: real, x: Id)
    requires Linked(nodes) && Distinct(nodes) && CanLink(nodes, p, id, key, rank) && x in nodes && x != p
    ensures var after := Link(nodes, p, id, key, rank); LinkOk(after, x, after[x].next)
  {
    hide So;
    hide Clean;
    hide Beyond;
    hide SameLiveKey;
    var after := Link(nodes, p, id, key, rank);
    var y := nodes[x].next;
    assert LinkOk(nodes, x, y);
    assert !Before(nodes, x, p) || (y.Some? && !Before(nodes, p, y.value));
    assert !Before(after, x, id) || (y.Some? && !Before(after, id, y.value));
    forall z | z in after && Before(after, x, z) && (y.Some? ==> Before(after, z, y.value))
      ensures after[z].marked
    {
      assert z != id && Before(nodes, x, z);
    }
  }

  lemma LinkLinked(nodes: Nodes, p: Id, id: Id, key: Key, rank: real)
    requires Linked(nodes) && Distinct(nodes) && CanLink(nodes, p, id, key, rank)
    ensures Linked(Link(nodes, p, id, key, rank))
  {
    hide So;
    hide Clean;
    hide Beyond;
    hide Distinct;
    var after := Link(nodes, p, id, key, rank);
    var next := nodes[p].next;
    assert LinkOk(nodes, p, next);
    assert LinkOk(after, p, Some(id)) by {
      assert Before(after, p, id);
    }
    assert LinkOk(after, id, next) by {
      forall z | z in after && Before(after, id, z) && (next.Some? ==> Before(after, z, next.value))
        ensures after[z].marked
      {
        assert Before(nodes, p, z);
      }
    }
    hide LinkOk;
    hide CanLink;
    forall x | x in after
      ensures LinkOk(after, x, after[x].next)
    {
      if x != p && x != id {
        LinkOfOther(nodes, p, id, key, rank, x);
      }
    }
  }

  lemma LinkOrdered(nodes: Nodes, p: Id, id: Id, key: Key, rank: real)
    requires Chain(nodes) && CanLink(nodes, p, id, key, rank)
    ensures Ordered(Link(nodes, p, id, key, rank))
  {
    hide So;
    hide Clean;
    var after := Link(nodes, p, id, key, rank);
    var next := nodes[p].next;
    assert LinkOk(nodes, p, next);
    forall x, z | x in after && z in after && Before(after, x, z) && !after[z].marked
      ensures So(after[x].key) <= So(after[z].key)
    {
      if z == id {
        assert x == p || Before(nodes, x, p);
      } else if x == id {
        assert Before(nodes, p, z);
        assert next.Some? && (z == next.value || Before(nodes, next.value, z));
      } else {
        assert Before(nodes, x, z);
      }
    }
  }

  lemma LinksInside(nodes: Nodes)
    requires Linked(nodes)
    ensures forall x :: x in nodes && nodes[x].next.Some? ==> nodes[x].next.value in nodes
  {
    forall x | x in nodes && nodes[x].next.Some?
      ensures nodes[x].next.value in nodes
    {
      assert LinkOk(nodes, x, nodes[x].next);
    }
  }

  lemma LinkRising(nodes: Nodes, p: Id, id: Id, key: Key, rank: real)
    requires Linked(nodes) && Rising(nodes) && CanLink(nodes, p, id, key, rank)
    ensures Rising(Link(nodes, p, id, key, rank))
  {
    hide So;
    hide Linked;
    hide Clean;
    LinksInside(nodes);
    hide RankBehind;
    var after := Link(nodes, p, id, key, rank);
    forall x | x in after
      ensures RisesAt(after, x)
    {
      assert x in nodes ==> RisesAt(nodes, x);
    }
  }

  lemma LinkKeepsChain(nodes: Nodes, p: Id, id: Id, key: Key, rank: real)
    requires Chain(nodes) && CanLink(nodes, p, id, key, rank)
    ensures Chain(Link(nodes, p, id, key, rank))
  {
    hide So;
    hide Linked;
    hide Ordered;
    hide Rising;
    hide Clean;
    hide Beyond;
    LinkLinked(nodes, p, id, key, rank);
    LinkOrdered(nodes, p, id, key, rank);
    LinkRising(nodes, p, id, key, rank);
    LinkAbsent(nodes, p, id, key, rank);
  }

  lemma UnlinkLinked(nodes: Nodes, p: Id, c: Id)
    requires Linked(nodes) && Distinct(nodes) && CanUnlink(nodes, p, c)
    ensures Linked(Unlink(nodes, p, c))
  {
    var after := Unlink(nodes, p, c);
    assert LinkOk(nodes, p, nodes[p].next) && LinkOk(nodes, c, nodes[c].next);
    forall x | x in after
      ensures LinkOk(after, x, after[x].next)
    {
      assert LinkOk(nodes, x, nodes[x].next);
      var y := after[x].next;
      forall z | z in after && Before(after, x, z) && (y.Some? ==> Before(after, z, y.value))
        ensures after[z].marked
      {
        assert Before(nodes, x, z);
        if x == p {
          assert z == c || Before(nodes, z, c) || Before(nodes, c, z);
        }
      }
    }
  }

  lemma UnlinkRising(nodes: Nodes, p: Id, c: Id)
    requires Linked(nodes) && Rising(nodes) && CanUnlink(nodes, p, c)
    ensures Rising(Unlink(nodes, p, c))
  {
    hide So;
    hide Linked;
    LinksInside(nodes);
    var after := Unlink(nodes, p, c);
    assert RisesAt(nodes, p) && RisesAt(nodes, c);
    forall x | x in after
      ensures RisesAt(after, x)
    {
      assert RisesAt(nodes, x);
    }
  }

  lemma UnlinkKeepsChain(nodes: Nodes, p: Id, c: Id)
    requires Chain(nodes) && CanUnlink(nodes, p, c)
    ensures Chain(Unlink(nodes, p, c))
  {
    hide So;
    hide Linked;
    hide Rising;
    UnlinkLinked(nodes, p, c);
    UnlinkRising(nodes, p, c);
    StillOrdered(nodes, Unlink(nodes, p, c));
  }

  lemma MarkLinked(nodes: Nodes, v: Id)
    requires Linked(nodes) && CanMark(nodes, v)
    ensures Linked(Mark(nodes, v))
  {
    var after := Mark(nodes, v);
    forall x | x in after
      ensures LinkOk(after, x, after[x].next)
    {
      assert LinkOk(nodes, x, nodes[x].next);
      var y := nodes[x].next;
      forall z | z in after && Before(after, x, z) && (y.Some? ==> Before(after, z, y.value))
        ensures after[z].marked
      {
        assert Before(nodes, x, z);
      }
    }
  }

  lemma MarkKeepsChain(nodes: Nodes, v: Id)
    requires Chain(nodes) && CanMark(nodes, v)
    ensures Chain(Mark(nodes, v))
  {
    hide So;
    hide Linked;
    MarkLinked(nodes, v);
    StillOrdered(nodes, Mark(nodes, v));
    assert forall x :: x in nodes ==> RisesAt(nodes, x);
  }

  lemma StillOrdered(nodes: Nodes, after: Nodes)
    requires Ordered(nodes) && after.Keys == nodes.Keys
    requires forall x :: x in nodes ==>
      after[x].key == nodes[x].key && after[x].rank == nodes[x].rank && (nodes[x].marked ==> after[x].marked)
    ensures Ordered(after)
  {
    hide So;
    forall x, z | x in after && z in after && Before(after, x, z) && !after[z].marked
      ensures So(after[x].key) <= So(after[z].key)
    {
      assert Before(nodes, x, z);
    }
  }

  // ---------- what searches in progress may rely on ----------

  /** Keys and places are fixed, and so is everything about a marked node. */
  predicate Grows(nodes: Nodes, after: Nodes) {
    forall x :: x in nodes ==>
      x in after && after[x].key == nodes[x].key && after[x].rank == nodes[x].rank &&
      (nodes[x].marked ==> after[x] == nodes[x])
  }

  ghost predicate KeepsClean(nodes: Nodes, after: Nodes) {
    forall x, key :: x in nodes && x in after && Clean(nodes, x, key) ==> Clean(after, x, key)
  }

  /** A key appears in a stretch that was already searched only if it was absent until now. */
  ghost predicate KeepsNone(nodes: Nodes, after: Nodes) {
    forall x, key :: x in nodes && x in after && NoneBefore(nodes, Some(x), key) ==>
      NoneBefore(after, Some(x), key) || Absent(nodes, key)
  }

  predicate MarksRemove(nodes: Nodes, after: Nodes) {
    forall v :: v in nodes && v in after && !nodes[v].marked && after[v].marked ==> Absent(after, nodes[v].key)
  }

  ghost predicate Evolves(nodes: Nodes, after: Nodes) {
    Grows(nodes, after) && KeepsClean(nodes, after) && KeepsNone(nodes, after) && MarksRemove(nodes, after)
  }

  /** An unmarked node that is not beyond the key is not behind the place where the key is linked. */
  lemma NotBehindLink(nodes: Nodes, p: Id, id: Id, key: Key, rank: real, x: Id)
    requires Chain(nodes) && CanLink(nodes, p, id, key, rank) && x in nodes
    requires !nodes[x].marked && So(nodes[x].key) <= So(key)
    ensures !Before(nodes, p, x)
  {
    hide So;
    hide Clean;
    var next := nodes[p].next;
    assert LinkOk(nodes, p, next);
    if next.Some? {
      assert x != next.value;
      assert !Before(nodes, next.value, x);
    }
  }

  /** While x is unmarked and not beyond the key, the key is never linked in front of x. */
  lemma LinkKeepsClean(nodes: Nodes, p: Id, id: Id, key: Key, rank: real)
    requires Chain(nodes) && CanLink(nodes, p, id, key, rank)
    ensures KeepsClean(nodes, Link(nodes, p, id, key, rank))
  {
    hide So;
    hide Chain;
    var after := Link(nodes, p, id, key, rank);
    forall x, k | x in nodes && x in after && Clean(nodes, x, k)
      ensures Clean(after, x, k)
    {
      if !nodes[x].marked && So(nodes[x].key) <= So(k) {
        if k == key {
          NotBehindLink(nodes, p, id, key, rank, x);
        }
        forall z | z in after && !after[z].marked && Before(after, z, x)
          ensures after[z].key != k
        {
          if z != id {
            assert Before(nodes, z, x);
          }
        }
      }
    }
  }

  lemma LinkEvolves(nodes: Nodes, p: Id, id: Id, key: Key, rank: real)
    requires Chain(nodes) && CanLink(nodes, p, id, key, rank)
    ensures Evolves(nodes, Link(nodes, p, id, key, rank))
  {
    hide So;
    hide Chain;
    hide CanLink;
    hide Clean;
    hide KeepsClean;
    CanLinkParts(nodes, p, id, key, rank);
    var after := Link(nodes, p, id, key, rank);
    LinkKeepsClean(nodes, p, id, key, rank);
    LinkAbsent(nodes, p, id, key, rank);
    forall x, k | x in nodes && x in after && NoneBefore(nodes, Some(x), k)
      ensures NoneBefore(after, Some(x), k) || Absent(nodes, k)
    {
      if k != key {
        forall z | z in after && !after[z].marked && Before(after, z, x)
          ensures after[z].key != k
        {
          assert z != id ==> Before(nodes, z, x);
        }
      }
    }
  }

  lemma UnlinkEvolves(nodes: Nodes, p: Id, c: Id)
    requires CanUnlink(nodes, p, c)
    ensures Evolves(nodes, Unlink(nodes, p, c))
  {
    hide So;
    var after := Unlink(nodes, p, c);
    forall x, k | x in nodes && NoneBefore(nodes, Some(x), k)
      ensures NoneBefore(after, Some(x), k)
    {
      forall z | z in after && !after[z].marked && Before(after, z, x)
        ensures after[z].key != k
      {
        assert Before(nodes, z, x);
      }
    }
  }

  lemma MarkEvolves(nodes: Nodes, v: Id)
    requires Chain(nodes) && CanMark(nodes, v)
    ensures Evolves(nodes, Mark(nodes, v))
    ensures !Absent(nodes, nodes[v].key) && Absent(Mark(nodes, v), nodes[v].key)
  {
    hide So;
    hide Linked;
    hide Ordered;
    var after := Mark(nodes, v);
    forall x, k | x in nodes && NoneBefore(nodes, Some(x), k)
      ensures NoneBefore(after, Some(x), k)
    {
      forall z | z in after && !after[z].marked && Before(after, z, x)
        ensures after[z].key != k
      {
        assert Before(nodes, z, x);
      }
    }
  }

  // ---------- what the links reach ----------

  ghost function Behind(nodes: Nodes, x: Id): set<Id>
    requires x in nodes
  {
    set z | z in nodes && Before(nodes, x, z)
  }

  lemma FewerBehind(nodes: Nodes, x: Id, y: Id)
    requires x in nodes && y in nodes && Before(nodes, x, y)
    ensures |Behind(nodes, y)| < |Behind(nodes, x)|
  {
    assert y in Behind(nodes, x) && y !in Behind(nodes, y);
    Smaller(Behind(nodes, y), Behind(nodes, x));
  }

  lemma Smaller(a: set<Id>, b: set<Id>)
    requires a < b
    ensures |a| < |b|
  {
    var x :| x in b && x !in a;
    assert a <= b - {x};
    SubsetSize(a, b - {x});
  }

  /** The nodes met by following links from x. */
  ghost function Walk(nodes: Nodes, x: Id): (walk: seq<Id>)
    requires Chain(nodes) && x in nodes
    ensures forall i :: 0 <= i < |walk| ==> walk[i] in nodes
    decreases |Behind(nodes, x)|
  {
    hide So;
    assert LinkOk(nodes, x, nodes[x].next);
    match nodes[x].next
    case None => [x]
    case Some(y) =>
      FewerBehind(nodes, x, y);
      [x] + Walk(nodes, y)
  }

  /** Every unmarked node behind x is reached from x. */
  lemma {:induction false} LiveReached(nodes: Nodes, x: Id, z: Id)
    requires Chain(nodes) && x in nodes && z in nodes && !nodes[z].marked
    requires z == x || Before(nodes, x, z)
    ensures z in Walk(nodes, x)
    decreases |Behind(nodes, x)|
  {
    hide So;
    assert LinkOk(nodes, x, nodes[x].next);
    if z != x {
      var y := nodes[x].next.value;
      FewerBehind(nodes, x, y);
      assert z == y || Before(nodes, y, z);
      LiveReached(nodes, y, z);
    }
  }

  lemma {:induction false} WalkBehind(nodes: Nodes, x: Id, z: Id)
    requires Chain(nodes) && x in nodes && z in Walk(nodes, x)
    ensures z in nodes && (z == x || Before(nodes, x, z))
    decreases |Behind(nodes, x)|
  {
    hide So;
    assert LinkOk(nodes, x, nodes[x].next);
    if z != x && nodes[x].next.Some? {
      FewerBehind(nodes, x, nodes[x].next.value);
      WalkBehind(nodes, nodes[x].next.value, z);
    }
  }

  lemma WalkStep(nodes: Nodes, x: Id)
    requires Chain(nodes) && x in nodes
    ensures nodes[x].next == None ==> Walk(nodes, x) == [x]
    ensures nodes[x].next.Some? ==>
      var y := nodes[x].next.value;
      y in nodes && Before(nodes, x, y) && Walk(nodes, x) == [x] + Walk(nodes, y)
  {
    hide So;
    assert LinkOk(nodes, x, nodes[x].next);
  }

  lemma StepRises(nodes: Nodes, x: Id)
    requires Chain(nodes) && x in nodes && nodes[x].next.Some? && nodes[x].next.value in nodes
    ensures So(nodes[x].key) <= So(nodes[nodes[x].next.value].key)
  {
    hide So;
    assert RisesAt(nodes, x);
  }

  /** A walk meets its nodes, marked or not, in split order, and no node twice. */
  lemma {:induction false} WalkSorted(nodes: Nodes, x: Id, i: nat, j: nat)
    requires Chain(nodes) && x in nodes && i < j < |Walk(nodes, x)|
    ensures So(nodes[Walk(nodes, x)[i]].key) <= So(nodes[Walk(nodes, x)[j]].key)
    ensures Walk(nodes, x)[i] != Walk(nodes, x)[j]
    decreases |Behind(nodes, x)|
  {
    hide So;
    hide Chain;
    hide Walk;
    WalkStep(nodes, x);
    var y := nodes[x].next.value;
    FewerBehind(nodes, x, y);
    assert Walk(nodes, x)[j] == Walk(nodes, y)[j - 1];
    if i == 0 {
      WalkBehind(nodes, y, Walk(nodes, y)[j - 1]);
      StepRises(nodes, x);
      WalkStep(nodes, y);
      if j > 1 {
        WalkSorted(nodes, y, 0, j - 1);
      }
    } else {
      WalkSorted(nodes, y, i - 1, j - 1);
    }
  }

  // ---------- how the writes change what is reached ----------

  /** A walk over the new list that meets x met x before, unless x is new. */
  lemma {:induction false} LinkReaches(nodes: Nodes, after: Nodes, p: Id, id: Id, x: Id, z: Id)
    requires Chain(nodes) && Chain(after) && p in nodes && id !in nodes && x in nodes
    requires exists key, rank :: after == Link(nodes, p, id, key, rank)
    requires z in Walk(after, x)
    ensures z == id || z in Walk(nodes, x)
    decreases |Behind(nodes, x)|
  {
    hide So;
    hide Chain;
    hide Walk;
    WalkStep(nodes, x);
    WalkStep(after, x);
    if z != x {
      if x == p {
        WalkStep(after, id);
      }
      if z != id {
        FewerBehind(nodes, x, nodes[x].next.value);
        LinkReaches(nodes, after, p, id, nodes[x].next.value, z);
      }
    }
  }

  lemma {:induction false} MarkReaches(nodes: Nodes, v: Id, x: Id)
    requires Chain(nodes) && CanMark(nodes, v) && Chain(Mark(nodes, v)) && x in nodes
    ensures Walk(Mark(nodes, v), x) == Walk(nodes, x)
    decreases |Behind(nodes, x)|
  {
    hide So;
    hide Chain;
    hide Walk;
    WalkStep(nodes, x);
    WalkStep(Mark(nodes, v), x);
    if nodes[x].next.Some? {
      FewerBehind(nodes, x, nodes[x].next.value);
      MarkReaches(nodes, v, nodes[x].next.value);
    }
  }

  lemma {:induction false} UnlinkReaches(nodes: Nodes, p: Id, c: Id, x: Id, z: Id)
    requires Chain(nodes) && CanUnlink(nodes, p, c) && Chain(Unlink(nodes, p, c)) && x in nodes
    requires z in Walk(Unlink(nodes, p, c), x)
    ensures z in Walk(nodes, x)
    decreases |Behind(nodes, x)|
  {
    hide So;
    hide Chain;
    hide Walk;
    var after := Unlink(nodes, p, c);
    WalkStep(nodes, x);
    WalkStep(after, x);
    if z != x {
      var y := after[x].next.value;
      WalkStep(nodes, c);
      FewerBehind(nodes, x, y);
      UnlinkReaches(nodes, p, c, y, z);
    }
  }

  /** An unlinked node is reached from nowhere in front of it any more. */
  lemma {:induction false} UnlinkedUnreached(nodes: Nodes, p: Id, c: Id, x: Id)
    requires Chain(nodes) && CanUnlink(nodes, p, c) && Chain(Unlink(nodes, p, c)) && x in nodes
    requires x == p || Before(nodes, x, p)
    ensures c !in Walk(Unlink(nodes, p, c), x)
    decreases |Behind(nodes, x)|
  {
    hide So;
    hide Walk;
    hide Chain;
    var after := Unlink(nodes, p, c);
    WalkStep(after, x);
    WalkStep(nodes, p);
    WalkStep(nodes, c);
    if x == p {
      if after[p].next.Some? && c in Walk(after, after[p].next.value) {
        WalkBehind(after, after[p].next.value, c);
      }
    } else {
      NextUpTo(nodes, x, p);
      FewerBehind(nodes, x, nodes[x].next.value);
      UnlinkedUnreached(nodes, p, c, nodes[x].next.value);
    }
  }

  lemma NextUpTo(nodes: Nodes, x: Id, p: Id)
    requires Chain(nodes) && x in nodes && p in nodes && Before(nodes, x, p) && !nodes[p].marked
    ensures nodes[x].next.Some? && nodes[x].next.value in nodes && Before(nodes, x, nodes[x].next.value)
    ensures nodes[x].next.value == p || Before(nodes, nodes[x].next.value, p)
  {
    hide So;
    assert LinkOk(nodes, x, nodes[x].next);
  }

  /** There is always room right behind a node. */
  lemma {:induction false} RankExists(nodes: Nodes, p: Id, ids: set<Id>) returns (rank: real)
    requires p in nodes && ids <= nodes.Keys
    ensures nodes[p].rank < rank
    ensures forall z :: z in ids && Before(nodes, p, z) ==> rank < nodes[z].rank
    decreases |ids|
  {
    if ids == {} {
      rank := nodes[p].rank + 1.0;
    } else {
      var z :| z in ids;
      var rest := RankExists(nodes, p, ids - {z});
      rank := if Before(nodes, p, z) && nodes[z].rank <= rest then (nodes[p].rank + nodes[z].rank) / 2.0 else rest;
    }
  }
}
