/**
 The tracker of packets a node has transmitted: an LRU cache kept as a list and a map of list
 iterators, against the plain recency list it stands for.
 */
module PacketTracker {
  // ----- the specification: entries, most recently used first -----

  datatype Entry<K, V> = Entry(key: K, value: V)

  /** The position of `key`, or |r|. */
  function Position<K(==), V>(r: seq<Entry<K, V>>, key: K): (p: nat)
    ensures p <= |r| && (p < |r| ==> r[p].key == key)
    ensures forall i :: 0 <= i < p ==> r[i].key != key
  {
    if r == [] then 0 else if r[0].key == key then 0 else 1 + Position(r[1..], key)
  }

  predicate Holds<K(==), V>(r: seq<Entry<K, V>>, key: K) {
    Position(r, key) < |r|
  }

  function Without<K(==), V>(r: seq<Entry<K, V>>, p: nat): seq<Entry<K, V>>
    requires p < |r|
  {
    r[..p] + r[p + 1..]
  }

  function AddTo<K(==), V>(capacity: nat, r: seq<Entry<K, V>>, key: K, value: V): seq<Entry<K, V>>
    requires capacity > 0
  {
    var p := Position(r, key);
    if p < |r| then [Entry(key, value)] + Without(r, p)
    else if |r| == capacity then [Entry(key, value)] + r[..|r| - 1]
    else [Entry(key, value)] + r
  }

  function RemoveFrom<K(==), V>(r: seq<Entry<K, V>>, key: K): seq<Entry<K, V>> {
    var p := Position(r, key);
    if p < |r| then Without(r, p) else r
  }

  /** A successful lookup is a use. */
  function FindIn<K(==), V>(r: seq<Entry<K, V>>, key: K): seq<Entry<K, V>> {
    var p := Position(r, key);
    if p < |r| then [r[p]] + Without(r, p) else r
  }

  function ValueOr<K(==), V>(r: seq<Entry<K, V>>, key: K, default: V): V {
    var p := Position(r, key);
    if p < |r| then r[p].value else default
  }

  ghost predicate DistinctKeys<K, V>(r: seq<Entry<K, V>>) {
    forall i, j :: 0 <= i < j < |r| ==> r[i].key != r[j].key
  }

  // ----- the code -----

  /** A node of the doubly linked list; iterators are node identities and stay good until the node is erased. */
  datatype Node<K, V> = Node(id: nat, entry: Entry<K, V>)

  function Entries<K(==), V>(list: seq<Node<K, V>>): (r: seq<Entry<K, V>>)
    ensures |r| == |list| && forall i :: 0 <= i < |list| ==> r[i] == list[i].entry
  {
    if list == [] then [] else [list[0].entry] + Entries(list[1..])
  }

  /** Where an iterator points. */
  function NodeAt<K(==), V>(list: seq<Node<K, V>>, id: nat): (p: nat)
    ensures p <= |list| && (p < |list| ==> list[p].id == id)
    ensures forall i :: 0 <= i < p ==> list[i].id != id
  {
    if list == [] then 0 else if list[0].id == id then 0 else 1 + NodeAt(list[1..], id)
  }

  /** `list.erase` at a position. */
  function Erased<K(==), V>(list: seq<Node<K, V>>, p: nat): seq<Node<K, V>>
    requires p < |list|
  {
    list[..p] + list[p + 1..]
  }

  /** Every iterator in the map is good and points at the node of its key, and every node is pointed at. */
  ghost predicate Linked<K, V>(list: seq<Node<K, V>>, iterators: map<K, nat>, nextId: nat) {
    NodesAreMapped(list, iterators, nextId) && NodesDiffer(list) && IteratorsPoint(list, iterators)
  }

  ghost predicate NodesAreMapped<K, V>(list: seq<Node<K, V>>, iterators: map<K, nat>, nextId: nat) {
    forall i :: 0 <= i < |list| ==>
      list[i].entry.key in iterators && iterators[list[i].entry.key] == list[i].id && list[i].id < nextId
  }

  ghost predicate NodesDiffer<K, V>(list: seq<Node<K, V>>) {
    forall i, j :: 0 <= i < j < |list| ==> list[i].id != list[j].id && list[i].entry.key != list[j].entry.key
  }

  ghost predicate IteratorsPoint<K, V>(list: seq<Node<K, V>>, iterators: map<K, nat>) {
    forall k :: k in iterators ==> PointsAt(list, iterators[k], k)
  }

  ghost predicate PointsAt<K, V>(list: seq<Node<K, V>>, id: nat, key: K) {
    exists i :: 0 <= i < |list| && list[i].id == id && list[i].entry.key == key
  }

  class PacketTracker<K(==), V> {
    var lruList: seq<Node<K, V>>
    var iterators: map<K, nat>
    var nextId: nat
    const capacity: nat

    ghost predicate Valid()
      reads this
    {
      Linked(lruList, iterators, nextId) && capacity > 0 && |lruList| <= capacity
    }

    /** The recency list the tracker stands for. */
    ghost function Recency(): seq<Entry<K, V>>
      reads this
    {
      Entries(lruList)
    }

    constructor (capacity: nat)
      requires capacity > 0
      ensures Valid() && Recency() == [] && this.capacity == capacity
    {
      this.capacity := capacity;
      lruList := [];
      iterators := map[];
      nextId := 0;
    }

    method EvictLast()
      requires Valid() && lruList != []
      modifies this
      ensures Valid() && |lruList| == |old(lruList)| - 1
      ensures Recency() == old(Recency())[..|old(lruList)| - 1]
      ensures forall k :: k in iterators ==> k in old(iterators)
    {
      hide Linked, Entries;
      var last := lruList[|lruList| - 1];
      EntriesPrefix(lruList, |lruList| - 1);
      LinkedAfterErase(lruList, iterators, nextId, |lruList| - 1);
      assert Erased(lruList, |lruList| - 1) == lruList[..|lruList| - 1];
      hide Erased;
      iterators := iterators - {last.entry.key};
      lruList := lruList[..|lruList| - 1];
    }

    method PushFront(key: K, value: V)
      requires Valid() && key !in iterators && |lruList| < capacity
      modifies this
      ensures Valid() && Recency() == [Entry(key, value)] + old(Recency())
    {
      LinkedAfterPush(lruList, iterators, nextId, key, value);
      PushedEntry(Node(nextId, Entry(key, value)), lruList);
      hide Linked, Entries;
      lruList := [Node(nextId, Entry(key, value))] + lruList;
      iterators := iterators[key := nextId];
      nextId := nextId + 1;
    }

    method MoveToFront(key: K, value: V)
      requires Valid() && key in iterators
      modifies this
      ensures Valid() && Holds(old(Recency()), key)
      ensures Recency() == [Entry(key, value)] + Without(old(Recency()), Position(old(Recency()), key))
    {
      RemoveEntry(key);
      PushFront(key, value);
    }

    method AddEntry(key: K, value: V)
      requires Valid()
      modifies this
      ensures Valid()
      ensures Recency() == AddTo(capacity, old(Recency()), key, value)
    {
      IteratorsAreKeys(lruList, iterators, nextId, key);
      hide Linked, Entries, Without;
      if key in iterators {
        MoveToFront(key, value);
      } else {
        if |lruList| == capacity {
          EvictLast();
        }
        PushFront(key, value);
      }
    }

    method RemoveEntry(key: K)
      requires Valid()
      modifies this
      ensures Valid() && Recency() == RemoveFrom(old(Recency()), key) && key !in iterators
      ensures |lruList| == |old(lruList)| - if Holds(old(Recency()), key) then 1 else 0
      ensures key in old(iterators) <==> Holds(old(Recency()), key)
    {
      hide Linked, Erased, NodeAt, Entries, Without;
      IteratorsAreKeys(lruList, iterators, nextId, key);
      if key in iterators {
        IteratorFindsKey(lruList, iterators, nextId, key);
        var at := NodeAt(lruList, iterators[key]);
        ErasedNode(lruList, iterators, nextId, at, key);
        EntriesErased(lruList, at);
        LinkedAfterErase(lruList, iterators, nextId, at);
        lruList := Erased(lruList, at);
        iterators := iterators - {key};
      }
    }

    method ClearMap()
      requires Valid()
      modifies this
      ensures Valid() && Recency() == []
    {
      lruList := [];
      iterators := map[];
    }

    method KeyExists(key: K) returns (found: bool)
      requires Valid()
      ensures found <==> Holds(Recency(), key)
    {
      IteratorsAreKeys(lruList, iterators, nextId, key);
      found := key in iterators;
    }

    method FindOrDefault(key: K, default: V) returns (value: V)
      requires Valid()
      modifies this
      ensures Valid() && Recency() == FindIn(old(Recency()), key)
      ensures value == ValueOr(old(Recency()), key, default)
    {
      IteratorsAreKeys(lruList, iterators, nextId, key);
      if key in iterators {
        IteratorFindsKey(lruList, iterators, nextId, key);
        MoveToFront(key, lruList[NodeAt(lruList, iterators[key])].entry.value);
        IteratorFindsKey(lruList, iterators, nextId, key);
        return lruList[NodeAt(lruList, iterators[key])].entry.value;
      }
      return default;
    }
  }

  lemma IteratorsAreKeys<K, V>(list: seq<Node<K, V>>, iterators: map<K, nat>, nextId: nat, key: K)
    requires Linked(list, iterators, nextId)
    ensures key in iterators <==> Holds(Entries(list), key)
  {
    var r := Entries(list);
    if key in iterators {
      assert PointsAt(list, iterators[key], key);
      var i :| 0 <= i < |list| && list[i].id == iterators[key] && list[i].entry.key == key;
      assert r[i].key == key;
    }
  }

  /** The iterator stored for a key leads to that key's node. */
  lemma IteratorFindsKey<K, V>(list: seq<Node<K, V>>, iterators: map<K, nat>, nextId: nat, key: K)
    requires Linked(list, iterators, nextId) && key in iterators
    ensures NodeAt(list, iterators[key]) == Position(Entries(list), key) < |list|
  {
    IteratorsAreKeys(list, iterators, nextId, key);
    var p, q := Position(Entries(list), key), NodeAt(list, iterators[key]);
    assert list[p].entry.key == key && list[p].id == iterators[key];
  }

  lemma EntriesPrefix<K, V>(list: seq<Node<K, V>>, n: nat)
    requires n <= |list|
    ensures Entries(list[..n]) == Entries(list)[..n]
  {
    assert forall i :: 0 <= i < n ==> Entries(list[..n])[i] == Entries(list)[i];
  }

  lemma EntriesErased<K, V>(list: seq<Node<K, V>>, p: nat)
    requires p < |list|
    ensures Entries(Erased(list, p)) == Without(Entries(list), p)
  {
    var l, r := Entries(Erased(list, p)), Without(Entries(list), p);
    ErasedAt(list, p);
    WithoutAt(Entries(list), p);
    hide Entries, Erased, Without;
    assert |l| == |r|;
    forall i | 0 <= i < |l| ensures l[i] == r[i] {
      assert Erased(list, p)[i] == list[Skipping(p, i)];
    }
  }

  lemma WithoutAt<K, V>(r: seq<Entry<K, V>>, p: nat)
    requires p < |r|
    ensures |Without(r, p)| == |r| - 1
    ensures forall i :: 0 <= i < |r| - 1 ==> Without(r, p)[i] == r[Skipping(p, i)]
  {
  }

  lemma ErasedNode<K, V>(list: seq<Node<K, V>>, iterators: map<K, nat>, nextId: nat, p: nat, key: K)
    requires Linked(list, iterators, nextId) && key in iterators && p < |list| && list[p].id == iterators[key]
    ensures list[p].entry.key == key && |Erased(list, p)| == |list| - 1
  {
    assert PointsAt(list, iterators[key], key);
  }

  lemma PushedEntry<K, V>(n: Node<K, V>, list: seq<Node<K, V>>)
    ensures Entries([n] + list) == [n.entry] + Entries(list)
  {
    assert ([n] + list)[1..] == list;
  }

  // ----- erasing and pushing keep list and map linked -----

  /** Where the node at `i` of a list without position `p` was before. */
  function Skipping(p: nat, i: nat): nat {
    if i < p then i else i + 1
  }

  lemma ErasedAt<K, V>(list: seq<Node<K, V>>, p: nat)
    requires p < |list|
    ensures |Erased(list, p)| == |list| - 1
    ensures forall i :: 0 <= i < |list| - 1 ==> Erased(list, p)[i] == list[Skipping(p, i)]
  {
  }

  lemma LinkedAfterErase<K, V>(list: seq<Node<K, V>>, iterators: map<K, nat>, nextId: nat, p: nat)
    requires Linked(list, iterators, nextId) && p < |list|
    ensures Linked(Erased(list, p), iterators - {list[p].entry.key}, nextId)
  {
    hide Erased, NodesAreMapped, NodesDiffer, IteratorsPoint;
    ErasedAt(list, p);
    NodesStayMapped(list, Erased(list, p), iterators, nextId, p);
    NodesStayDifferent(list, Erased(list, p), p);
    IteratorsStayPointing(list, Erased(list, p), iterators, p);
  }

  lemma NodesStayMapped<K, V>(list: seq<Node<K, V>>, l: seq<Node<K, V>>, iterators: map<K, nat>, nextId: nat, p: nat)
    requires NodesAreMapped(list, iterators, nextId) && NodesDiffer(list) && p < |list| == |l| + 1
    requires forall i :: 0 <= i < |l| ==> l[i] == list[Skipping(p, i)]
    ensures NodesAreMapped(l, iterators - {list[p].entry.key}, nextId)
  {
    forall i | 0 <= i < |l|
      ensures l[i].entry.key != list[p].entry.key && iterators[l[i].entry.key] == l[i].id && l[i].id < nextId
    {
      assert l[i] == list[Skipping(p, i)];
    }
  }

  lemma NodesStayDifferent<K, V>(list: seq<Node<K, V>>, l: seq<Node<K, V>>, p: nat)
    requires NodesDiffer(list) && p < |list| == |l| + 1
    requires forall i :: 0 <= i < |l| ==> l[i] == list[Skipping(p, i)]
    ensures NodesDiffer(l)
  {
    forall i, j | 0 <= i < j < |l| ensures l[i].id != l[j].id && l[i].entry.key != l[j].entry.key {
      assert l[i] == list[Skipping(p, i)] && l[j] == list[Skipping(p, j)];
    }
  }

  lemma IteratorsStayPointing<K, V>(list: seq<Node<K, V>>, l: seq<Node<K, V>>, iterators: map<K, nat>, p: nat)
    requires IteratorsPoint(list, iterators) && p < |list| == |l| + 1
    requires forall i :: 0 <= i < |l| ==> l[i] == list[Skipping(p, i)]
    ensures IteratorsPoint(l, iterators - {list[p].entry.key})
  {
    forall k | k in iterators && k != list[p].entry.key ensures PointsAt(l, iterators[k], k) {
      assert PointsAt(list, iterators[k], k);
      var i :| 0 <= i < |list| && list[i].id == iterators[k] && list[i].entry.key == k;
      var j := if i < p then i else i - 1;
      assert l[j] == list[i];
    }
  }

  lemma LinkedAfterPush<K, V>(list: seq<Node<K, V>>, iterators: map<K, nat>, nextId: nat, key: K, value: V)
    requires Linked(list, iterators, nextId) && key !in iterators
    ensures Linked([Node(nextId, Entry(key, value))] + list, iterators[key := nextId], nextId + 1)
  {
    var l, m := [Node(nextId, Entry(key, value))] + list, iterators[key := nextId];
    forall k | k in m ensures PointsAt(l, m[k], k) {
      if k == key {
        assert l[0] == Node(nextId, Entry(key, value));
      } else {
        assert PointsAt(list, iterators[k], k);
        var i :| 0 <= i < |list| && list[i].id == iterators[k] && list[i].entry.key == k;
        assert l[i + 1] == list[i] && m[k] == iterators[k];
      }
    }
  }

  // ----- how long an entry stays -----

  datatype Op<K, V> = Add(key: K, value: V) | Find(key: K) | Exists(key: K) | Remove(key: K) | Clear

  function Step<K(==), V>(capacity: nat, r: seq<Entry<K, V>>, op: Op<K, V>): seq<Entry<K, V>>
    requires capacity > 0
  {
    match op
    case Add(key, value) => AddTo(capacity, r, key, value)
    case Find(key) => FindIn(r, key)
    case Exists(_) => r
    case Remove(key) => RemoveFrom(r, key)
    case Clear => []
  }

  function Run<K(==), V>(capacity: nat, r: seq<Entry<K, V>>, ops: seq<Op<K, V>>): seq<Entry<K, V>>
    requires capacity > 0
    decreases |ops|
  {
    if ops == [] then r else Run(capacity, Step(capacity, r, ops[0]), ops[1..])
  }

  /** Operations that use no keys but `key` and those in `others`, and take `key` out by no explicit call. */
  ghost predicate Spares<K, V>(op: Op<K, V>, key: K, others: set<K>) {
    match op
    case Add(k, _) => k == key || k in others
    case Find(k) => k == key || k in others
    case Exists(_) => true
    case Remove(k) => k != key
    case Clear => false
  }

  ghost predicate Bounded<K, V>(capacity: nat, r: seq<Entry<K, V>>) {
    DistinctKeys(r) && |r| <= capacity
  }

  lemma StepKeepsBound<K, V>(capacity: nat, r: seq<Entry<K, V>>, op: Op<K, V>)
    requires capacity > 0 && Bounded(capacity, r)
    ensures Bounded(capacity, Step(capacity, r, op))
  {
    hide Position;
    if !op.Clear? && Holds(r, op.key) {
      var q := Position(r, op.key);
      WithoutAt(r, q);
      hide Without;
      forall i, j | 0 <= i < j < |r| - 1 ensures Without(r, q)[i].key != Without(r, q)[j].key {
      }
      assert forall i :: 0 <= i < |r| - 1 ==> Without(r, q)[i].key != op.key;
    }
  }

  /** Everything before `key` in the list is in `others`. */
  ghost predicate OnlyBefore<K, V>(r: seq<Entry<K, V>>, key: K, others: set<K>) {
    && Holds(r, key)
    && forall i :: 0 <= i < Position(r, key) ==> r[i].key in others
  }

  lemma {:induction false} DistinctFitsSet<K, V>(r: seq<Entry<K, V>>, n: nat, s: set<K>)
    requires DistinctKeys(r) && n <= |r| && forall i :: 0 <= i < n ==> r[i].key in s
    ensures n <= |s|
    decreases n
  {
    if n > 0 {
      DistinctFitsSet(r, n - 1, s - {r[n - 1].key});
    }
  }

  lemma MovedAt<K, V>(r: seq<Entry<K, V>>, q: nat, value: V)
    requires q < |r|
    ensures var s := [Entry(r[q].key, value)] + Without(r, q);
      && |s| == |r| && s[0] == Entry(r[q].key, value)
      && (forall i :: 1 <= i <= q ==> s[i] == r[i - 1]) && (forall i :: q < i < |r| ==> s[i] == r[i])
  {
  }

  /** Moving an entry to the front, for the spared key and for another one. */
  lemma MoveKeepsEntry<K, V>(r: seq<Entry<K, V>>, q: nat, value: V, key: K, others: set<K>)
    requires DistinctKeys(r) && OnlyBefore(r, key, others) && q < |r|
    requires r[q].key == key || r[q].key in others
    ensures var s := [Entry(r[q].key, value)] + Without(r, q);
      OnlyBefore(s, key, others) && (r[q].key != key ==> s[Position(s, key)] == r[Position(r, key)])
  {
    hide Position, Without;
    var p := Position(r, key);
    var s := [Entry(r[q].key, value)] + Without(r, q);
    MovedAt(r, q, value);
    if r[q].key == key {
      PositionIs(s, key, 0);
    } else if q < p {
      PositionIs(s, key, p);
    } else {
      PositionIs(s, key, p + 1);
    }
  }

  lemma PushedAt<K, V>(r: seq<Entry<K, V>>, e: Entry<K, V>, n: nat)
    requires n <= |r|
    ensures var s := [e] + r[..n]; |s| == n + 1 && s[0] == e && forall i :: 1 <= i <= n ==> s[i] == r[i - 1]
  {
  }

  lemma PushKeepsEntry<K, V>(r: seq<Entry<K, V>>, e: Entry<K, V>, n: nat, key: K, others: set<K>)
    requires DistinctKeys(r) && OnlyBefore(r, key, others) && e.key in others && !Holds(r, e.key)
    requires Position(r, key) < n <= |r|
    ensures var s := [e] + r[..n]; OnlyBefore(s, key, others) && s[Position(s, key)] == r[Position(r, key)]
  {
    hide Position;
    var s := [e] + r[..n];
    PushedAt(r, e, n);
    assert Position(r, e.key) == |r|;
    PositionIs(s, key, Position(r, key) + 1);
  }

  /** Before the key there is room for all the others, so it is never the one evicted. */
  lemma StepKeepsEntry<K, V>(capacity: nat, r: seq<Entry<K, V>>, op: Op<K, V>, key: K, others: set<K>)
    requires Bounded(capacity, r) && |others| < capacity && key !in others
    requires OnlyBefore(r, key, others) && Spares(op, key, others)
    ensures OnlyBefore(Step(capacity, r, op), key, others)
    ensures !(op.Add? && op.key == key) ==>
              Step(capacity, r, op)[Position(Step(capacity, r, op), key)].value == r[Position(r, key)].value
  {
    hide Position;
    var p := Position(r, key);
    match op
    case Exists(_) =>
    case Add(k, v) =>
      if Holds(r, k) {
        MoveKeepsEntry(r, Position(r, k), v, key, others);
      } else {
        if p == capacity - 1 {
          assert Position(r, k) == |r|;
          DistinctFitsSet(r, p, others - {k});
        }
        assert r[..|r|] == r;
        PushKeepsEntry(r, Entry(k, v), if |r| == capacity then |r| - 1 else |r|, key, others);
      }
    case Find(k) =>
      if Holds(r, k) {
        MoveKeepsEntry(r, Position(r, k), r[Position(r, k)].value, key, others);
      }
    case Remove(k) =>
      if Holds(r, k) {
        DropKeepsEntry(r, Position(r, k), key, others);
      }
  }

  lemma DropKeepsEntry<K, V>(r: seq<Entry<K, V>>, q: nat, key: K, others: set<K>)
    requires DistinctKeys(r) && OnlyBefore(r, key, others) && q < |r| && r[q].key != key
    ensures var s := Without(r, q); OnlyBefore(s, key, others) && s[Position(s, key)] == r[Position(r, key)]
  {
    hide Position;
    var p := Position(r, key);
    var s := Without(r, q);
    WithoutAt(r, q);
    hide Without;
    PositionIs(s, key, if q < p then p - 1 else p);
  }

  lemma PositionIs<K, V>(r: seq<Entry<K, V>>, key: K, p: nat)
    requires p < |r| && r[p].key == key && forall i :: 0 <= i < p ==> r[i].key != key
    ensures Position(r, key) == p
  {
  }

  /**
   An entry survives every run that touches fewer than `capacity` distinct other keys since its
   last use and does not remove it explicitly; unless it is added again it keeps its value.
   */
  lemma {:induction false} EntrySurvives<K, V>(capacity: nat, r: seq<Entry<K, V>>, ops: seq<Op<K, V>>, key: K,
      others: set<K>)
    requires Bounded(capacity, r) && |others| < capacity && key !in others
    requires OnlyBefore(r, key, others) && forall op :: op in ops ==> Spares(op, key, others)
    ensures Bounded(capacity, Run(capacity, r, ops)) && Holds(Run(capacity, r, ops), key)
    ensures (forall op :: op in ops ==> !(op.Add? && op.key == key)) ==>
              forall d :: ValueOr(Run(capacity, r, ops), key, d) == ValueOr(r, key, d)
    decreases |ops|
  {
    hide Position;
    if ops != [] {
      var s := Step(capacity, r, ops[0]);
      StepKeepsBound(capacity, r, ops[0]);
      StepKeepsEntry(capacity, r, ops[0], key, others);
      EntrySurvives(capacity, s, ops[1..], key, others);
    }
  }

  /** Right after its use an entry is first, which is where the bound starts to count. */
  lemma UseBringsToFront<K, V>(capacity: nat, r: seq<Entry<K, V>>, op: Op<K, V>)
    requires Bounded(capacity, r) && capacity > 0
    requires op.Add? || (op.Find? && Holds(r, op.key))
    ensures OnlyBefore(Step(capacity, r, op), op.key, {}) && Position(Step(capacity, r, op), op.key) == 0
  {
    hide Position;
    PositionIs(Step(capacity, r, op), op.key, 0);
  }

  /** A removal drops one key, and leaves the order of the others. */
  lemma RemoveDropsOne<K, V>(r: seq<Entry<K, V>>, key: K)
    requires DistinctKeys(r)
    ensures var s := RemoveFrom(r, key);
      && !Holds(s, key) && (Holds(r, key) ==> |s| == |r| - 1) && (!Holds(r, key) ==> s == r)
      && forall i :: 0 <= i < |s| ==> s[i] == r[Skipping(Position(r, key), i)]
  {
    hide Position;
    if Holds(r, key) {
      var p := Position(r, key);
      WithoutAt(r, p);
      hide Without;
      forall i | 0 <= i < |r| - 1 ensures Without(r, p)[i].key != key {
      }
    }
  }

  /** What a lookup or an addition does to the value of a key that it is not about: nothing, or eviction. */
  lemma FindKeepsValues<K, V>(r: seq<Entry<K, V>>, key: K, other: K)
    ensures var s := FindIn(r, key);
      (Holds(s, other) <==> Holds(r, other)) && forall d :: ValueOr(s, other, d) == ValueOr(r, other, d)
  {
    if Holds(r, key) {
      MovedValue(r, Position(r, key), r[Position(r, key)].value, other);
    }
  }

  lemma AddKeepsValues<K, V>(capacity: nat, r: seq<Entry<K, V>>, key: K, value: V, other: K)
    requires capacity > 0 && key != other
    ensures var s := AddTo(capacity, r, key, value);
      Holds(s, other) ==> Holds(r, other) && forall d :: ValueOr(s, other, d) == ValueOr(r, other, d)
  {
    if Holds(r, key) {
      MovedValue(r, Position(r, key), value, other);
    } else {
      assert r[..|r|] == r;
      PushedValue(r, Entry(key, value), if |r| == capacity then |r| - 1 else |r|, other);
    }
  }

  /** An entry other than the added one stays, with its value, unless it is the last of a full list. */
  lemma AddKeepsOthers<K, V>(capacity: nat, r: seq<Entry<K, V>>, key: K, value: V, other: K)
    requires Bounded(capacity, r) && capacity > 0 && key != other && Holds(r, other)
    requires Holds(r, key) || |r| < capacity || r[capacity - 1].key != other
    ensures var s := AddTo(capacity, r, key, value);
      Holds(s, other) && forall d :: ValueOr(s, other, d) == ValueOr(r, other, d)
  {
    if Holds(r, key) {
      MovedValue(r, Position(r, key), value, other);
    } else {
      var n := if |r| == capacity then |r| - 1 else |r|;
      var s, p := [Entry(key, value)] + r[..n], Position(r, other);
      assert r[..|r|] == r;
      hide Position;
      PushedAt(r, Entry(key, value), n);
      PositionIs(s, other, p + 1);
    }
  }

  lemma MovedValue<K, V>(r: seq<Entry<K, V>>, q: nat, value: V, other: K)
    requires q < |r| && Position(r, r[q].key) == q && (r[q].key != other || r[q].value == value)
    ensures var s := [Entry(r[q].key, value)] + Without(r, q);
      (Holds(s, other) <==> Holds(r, other)) && forall d :: ValueOr(s, other, d) == ValueOr(r, other, d)
  {
    hide Position;
    var s := [Entry(r[q].key, value)] + Without(r, q);
    MovedAt(r, q, value);
    hide Without;
    var p := Position(r, other);
    if p < |r| {
      PositionIs(s, other, if r[q].key == other then 0 else if q < p then p else p + 1);
    } else {
      assert forall i :: 0 <= i < |r| ==> r[i].key != other;
      forall i | 0 <= i < |s| ensures s[i].key != other {
        assert i > 0 ==> s[i] == r[if i <= q then i - 1 else i];
      }
    }
  }

  lemma PushedValue<K, V>(r: seq<Entry<K, V>>, e: Entry<K, V>, n: nat, other: K)
    requires n <= |r| && e.key != other
    ensures var s := [e] + r[..n];
      Holds(s, other) ==> Holds(r, other) && forall d :: ValueOr(s, other, d) == ValueOr(r, other, d)
  {
    hide Position;
    var s := [e] + r[..n];
    PushedAt(r, e, n);
    var o := Position(s, other);
    if o < |s| {
      assert r[o - 1].key == other;
      forall i | 0 <= i < o - 1 ensures r[i].key != other {
        assert s[i + 1] == r[i];
      }
      PositionIs(r, other, o - 1);
    }
  }

  /** The bound is tight: `capacity` other keys are enough to push an entry out. */
  lemma OneMoreKeyEvicts<K, V>(capacity: nat, r: seq<Entry<K, V>>, key: K, other: K, value: V)
    requires Bounded(capacity, r) && Holds(r, key) && Position(r, key) == capacity - 1 && !Holds(r, other)
    ensures !Holds(AddTo(capacity, r, other, value), key)
  {
    hide Position;
    var s := AddTo(capacity, r, other, value);
    forall i | 0 <= i < |s| ensures s[i].key != key {
      if i > 0 {
        assert s[i] == r[i - 1];
      }
    }
  }
}
