/** RLfuCache of include/LFU.h, node by node: the key map, the linked frequency lists, minFreq_ and
    the running access total, each method shown to be the corresponding step of LfuPolicy. */
module LfuCache {
  import opened FreqLists
  import opened LfuPolicy
  import opened Wrappers
  import opened LfuIndex

  function AgedEntry<K, V>(c: Config<K>, e: Entry<V>, now: nat): Entry<V> { Entry(e.value, AgedFreq(c, e.freq), now) }

  ghost predicate KeyAged<K, V>(c: Config<K>, before: map<K, Entry<V>>, start: nat, todo: set<K>,
                                after: map<K, Entry<V>>, now: nat, k: K) {
    && k in before && k in after
    && if k in todo then after[k] == before[k]
       else start <= after[k].since < now && after[k] == AgedEntry(c, before[k], after[k].since)
  }

  /** The aging pass with the keys `todo` still to come. */
  ghost predicate AgedExcept<K, V>(c: Config<K>, before: map<K, Entry<V>>, start: nat, todo: set<K>,
                                   after: map<K, Entry<V>>, now: nat) {
    && after.Keys == before.Keys && now == start + |before.Keys - todo|
    && (forall k {:trigger KeyAged(c, before, start, todo, after, now, k)} ::
          k in before ==> KeyAged(c, before, start, todo, after, now, k))
    && (forall j, k {:trigger Apart(after, j, k)} ::
          j in before && k in before && j !in todo && k !in todo ==> Apart(after, j, k))
  }

  lemma AgedNone<K, V>(c: Config<K>, m: map<K, Entry<V>>, now: nat)
    ensures AgedExcept(c, m, now, m.Keys, m, now)
  {
    assert m.Keys - m.Keys == {};
  }

  lemma AgedOne<K, V>(c: Config<K>, before: map<K, Entry<V>>, start: nat, todo: set<K>,
                      after: map<K, Entry<V>>, now: nat, k: K)
    requires AgedExcept(c, before, start, todo, after, now) && k in todo && todo <= before.Keys
    ensures AgedExcept(c, before, start, todo - {k}, after[k := AgedEntry(c, after[k], now)], now + 1)
  {
    assert before.Keys - (todo - {k}) == before.Keys - todo + {k};
    var next := after[k := AgedEntry(c, after[k], now)];
    forall j | j in before ensures KeyAged(c, before, start, todo - {k}, next, now + 1, j) {
      assert KeyAged(c, before, start, todo, after, now, j);
    }
    forall i, j | i in before && j in before && i !in todo - {k} && j !in todo - {k} ensures Apart(next, i, j) {
      assert KeyAged(c, before, start, todo, after, now, i) && KeyAged(c, before, start, todo, after, now, j);
      if i != k && j != k { assert Apart(after, i, j); }
    }
  }

  lemma AgedAll<K(!new), V(!new)>(c: Config<K>, s: State<K, V>, t: State<K, V>)
    requires AgedExcept(c, s.entries, s.clock, {}, t.entries, t.clock) && t.total == s.total
    requires IsCappedMin(t.entries, t.minFreq)
    ensures Ages(c, s, t)
  {
    assert s.entries.Keys - {} == s.entries.Keys;
    assert |s.entries.Keys| == |s.entries|;
    forall k | k in s.entries ensures KeyAged(c, s.entries, s.clock, {}, t.entries, t.clock, k) {}
  }

  lemma RevaluedHit<K(!new), V(!new)>(s: State<K, V>, k: K, v: V)
    requires k in s.entries
    ensures Touched(s.(entries := s.entries[k := s.entries[k].(value := v)]), k, v) == Touched(s, k, v)
  {
    var m := s.entries[k := s.entries[k].(value := v)];
    assert m[k := Entry(v, m[k].freq + 1, s.clock)] == s.entries[k := Entry(v, s.entries[k].freq + 1, s.clock)];
  }

  function Average(total: int, keys: nat): int { if keys == 0 then 0 else total / keys }

  /** The next element in the unspecified order in which a hash table is walked. */
  method Pick<T(==)>(s: set<T>) returns (x: T)
    requires s != {}
    ensures x in s
  {
    x :| x in s;
  }

  class RLfuCache<K(==, 0, !new), V(0, !new)> {
    const capacity: int
    const maxAverage: int
    const blank: K      // the key that a default-constructed node carries
    var minFreq: int
    var average: int
    var total: int
    var nodeMap: map<K, Node<K, V>>
    var lists: map<int, FreqList<K, V>>
    ghost var chains: map<int, seq<Node<K, V>>>  // the contents of the lists
    ghost var info: map<K, Entry<V>>             // the contents of the cached nodes
    ghost var nodes: set<Node<K, V>>             // every node ever linked, sentinels included
    ghost var buckets: set<FreqList<K, V>>
    ghost var clock: nat

    // ----- well-formedness and abstraction -----

    ghost predicate ListOk(f: int)
      reads this`lists, this`chains, this`nodes, this`buckets, buckets`chain, buckets`cells
      reads nodes`owner, nodes`pre, nodes`next, nodes`freq
    {
      && f in lists && f in chains
      && lists[f] in buckets
      && lists[f].freq == f
      && lists[f].chain == chains[f]
      && lists[f].cells <= nodes
      && lists[f].tail.key == blank
      && lists[f].Valid()
    }

    /** The lists are well formed; they are disjoint because each node names the list that owns it. */
    ghost predicate ListsOk()
      reads this`lists, this`chains, this`nodes, this`buckets, buckets`chain, buckets`cells
      reads nodes`owner, nodes`pre, nodes`next, nodes`freq
    {
      chains.Keys == lists.Keys && forall f {:trigger ListOk(f)} :: f in lists ==> ListOk(f)
    }

    ghost predicate RecordOk(k: K)
      reads this`nodeMap, this`info, this`nodes, nodes`value, nodes`freq, nodes`since
    {
      && k in nodeMap && k in info && nodeMap[k] in nodes && nodeMap[k].key == k
      && info[k] == Entry(nodeMap[k].value, nodeMap[k].freq, nodeMap[k].since)
    }

    ghost predicate InfoOk()
      reads this`nodeMap, this`info, this`nodes, nodes`value, nodes`freq, nodes`since
    {
      info.Keys == nodeMap.Keys && forall k {:trigger RecordOk(k)} :: k in nodeMap ==> RecordOk(k)
    }

    ghost predicate Valid()
      reads this`lists, this`nodeMap, this`chains, this`info, this`nodes, this`buckets, this`clock
      reads buckets`chain, buckets`cells
      reads nodes`owner, nodes`pre, nodes`next, nodes`value, nodes`freq, nodes`since
    {
      ListsOk() && InfoOk() && Indexed(Index(nodeMap, chains, info), clock, None)
    }

    ghost function Abs(): (s: State<K, V>)
      reads this`info, this`minFreq, this`total, this`clock
    {
      State(info, minFreq, total, clock)
    }

    ghost function Limits(): Config<K> { Config(capacity, maxAverage, blank) }

    /** New nodes and lists are newly allocated. */
    twostate predicate GrownSince(ns: set<Node<K, V>>, ls: set<FreqList<K, V>>)
      reads this`nodes, this`buckets
    {
      && (forall x :: x in nodes && x !in ns ==> fresh(x))
      && (forall l :: l in buckets && l !in ls ==> fresh(l))
    }

    /** Every frequency is at least 1, and if anything is cached the lists for minFreq_ and for 1 exist. */
    ghost predicate Anchored()
      reads this`info, this`minFreq, this`total, this`clock, this`chains
    {
      Positive(Abs()) && (info != map[] ==> minFreq in chains && 1 in chains)
    }

    constructor (capacity: int, maxAverage: int, blank: K)
      ensures Limits() == Config(capacity, maxAverage, blank) && Anchored()
      ensures Valid() && Abs() == Initial() && nodes == {} && buckets == {}
    {
      this.capacity, this.maxAverage, this.blank := capacity, maxAverage, blank;
      minFreq, average, total := INT8_MAX, 0, 0;
      nodeMap, lists, chains, info, nodes, buckets, clock := map[], map[], map[], map[], {}, {}, 0;
    }

    // ----- moving a node between lists -----

    /** removeFromFreqList. */
    method RemoveFromFreqList(node: Node<K, V>, ghost at: nat)
      requires ListsOk() && InfoOk() && node.freq in lists && node in nodes
      requires node.next != null ==> 0 < at < |chains[node.freq]| - 1 && chains[node.freq][at] == node
      modifies this`chains, nodes`pre, nodes`next, nodes`owner, buckets`chain, buckets`cells
      ensures ListsOk() && InfoOk()
      ensures if old(node.next) == null then chains == old(chains)
              else node.owner == null && chains == old(chains)[node.freq := Without(old(chains)[node.freq], at)]
    {
      assert ListOk(node.freq);
      var list := lists[node.freq];
      list.RemoveNode(node, at);
      chains := chains[node.freq := list.chain];
      assert old(node.next) == null ==> chains == old(chains);
      forall g | g in lists ensures ListOk(g) { assert old(ListOk(g)); }
    }

    /** A member of a list has a successor. */
    lemma Successor(node: Node<K, V>, at: nat)
      requires ListsOk() && node.freq in lists
      requires 0 < at < |chains[node.freq]| - 1 && chains[node.freq][at] == node
      ensures node.next != null
    {
      assert ListOk(node.freq);
      assert lists[node.freq].chain[at].next == lists[node.freq].chain[at + 1];
    }

    method EnsureList(f: int)
      requires ListsOk() && InfoOk()
      modifies this`lists, this`chains, this`nodes, this`buckets
      ensures ListsOk() && InfoOk() && f in lists
      ensures chains == WithList(old(chains), f, lists[f].head, lists[f].tail)
      ensures GrownSince(old(nodes), old(buckets))
    {
      if f !in lists {
        var l := new FreqList<K, V>(f, blank);
        lists, chains := lists[f := l], chains[f := [l.head, l.tail]];
        nodes, buckets := nodes + {l.head, l.tail}, buckets + {l};
        forall g | g in lists ensures ListOk(g) { if g != f { assert old(ListOk(g)); } }
        forall k | k in nodeMap ensures RecordOk(k) { assert old(RecordOk(k)); }
      }
    }

    method LinkLast(node: Node<K, V>)
      requires ListsOk() && InfoOk() && node.freq in lists && node in nodes && node.owner == null
      modifies this`chains, nodes`pre, nodes`next, nodes`owner, buckets`chain, buckets`cells
      ensures ListsOk() && InfoOk()
      ensures old(chains)[node.freq] != []
      ensures chains == old(chains)[node.freq := BeforeLast(old(chains)[node.freq], node)]
    {
      assert ListOk(node.freq);
      var list := lists[node.freq];
      list.AddNode(node);
      chains := chains[node.freq := list.chain];
      forall g | g in lists ensures ListOk(g) { assert old(ListOk(g)); }
    }

    ghost method Arrive(node: Node<K, V>)
      requires InfoOk() && node.key in nodeMap && nodeMap[node.key] == node
      modifies this`info, this`clock, node`since
      ensures InfoOk() && info == Stamp(old(info), node.key, old(clock)) && clock == old(clock) + 1
    {
      node.since := clock;
      info, clock := Stamp(info, node.key, clock), clock + 1;
      forall k | k in nodeMap ensures RecordOk(k) { assert old(RecordOk(k)) && old(RecordOk(node.key)); }
    }

    method Attach(node: Node<K, V>)
      requires ListsOk() && InfoOk() && node.freq in lists && node.owner == null
      requires node.key in nodeMap && nodeMap[node.key] == node
      modifies this`chains, this`info, this`clock, nodes`pre, nodes`next, nodes`owner, node`since
      modifies buckets`chain, buckets`cells
      ensures ListsOk() && InfoOk()
      ensures old(chains)[node.freq] != []
      ensures chains == old(chains)[node.freq := BeforeLast(old(chains)[node.freq], node)]
      ensures info == Stamp(old(info), node.key, old(clock)) && clock == old(clock) + 1
    {
      assert RecordOk(node.key);
      LinkLast(node);
      Arrive(node);
    }

    /** addToFreqList. */
    method AddToFreqList(node: Node<K, V>) returns (ghost head: Node<K, V>, ghost tail: Node<K, V>)
      requires ListsOk() && InfoOk() && node.owner == null
      requires node.key in nodeMap && nodeMap[node.key] == node
      modifies this`lists, this`nodes, this`buckets
      modifies this`chains, this`info, this`clock, nodes`pre, nodes`next, nodes`owner, node`since
      modifies buckets`chain, buckets`cells
      ensures ListsOk() && InfoOk() && nodeMap == old(nodeMap)
      ensures JoinedTo(old(chains), node.freq, head, tail, node, chains)
      ensures info == Stamp(old(info), node.key, old(clock)) && clock == old(clock) + 1
      ensures GrownSince(old(nodes), old(buckets))
    {
      EnsureList(node.freq);
      head, tail := lists[node.freq].head, lists[node.freq].tail;
      Attach(node);
    }

    method SetFreq(node: Node<K, V>, f: int)
      requires ListsOk() && InfoOk() && node.key in nodeMap && nodeMap[node.key] == node && node.owner == null
      modifies this`info, node`freq
      ensures ListsOk() && InfoOk() && info == old(info)[node.key := Entry(node.value, f, node.since)]
    {
      node.freq := f;
      info := info[node.key := Entry(node.value, f, node.since)];
      forall g | g in lists ensures ListOk(g) { assert old(ListOk(g)); }
      forall k | k in nodeMap ensures RecordOk(k) { assert old(RecordOk(k)) && old(RecordOk(node.key)); }
    }

    method Detach(node: Node<K, V>, f: int, ghost at: nat)
      requires ListsOk() && InfoOk() && node.freq in lists
      requires 0 < at < |chains[node.freq]| - 1 && chains[node.freq][at] == node
      requires node.key in nodeMap && nodeMap[node.key] == node
      modifies this`chains, this`info, node`freq, nodes`pre, nodes`next, nodes`owner, buckets`chain, buckets`cells
      ensures ListsOk() && InfoOk() && node.owner == null
      ensures chains == old(chains)[old(node.freq) := Without(old(chains)[old(node.freq)], at)]
      ensures node.freq == f && info == old(info)[node.key := Entry(node.value, f, node.since)]
    {
      assert RecordOk(node.key);
      Successor(node, at);
      RemoveFromFreqList(node, at);
      SetFreq(node, f);
      assert RecordOk(node.key);
    }

    method Move(node: Node<K, V>, f: int, ghost at: nat) returns (ghost head: Node<K, V>, ghost tail: Node<K, V>)
      requires ListsOk() && InfoOk() && node.freq in lists
      requires 0 < at < |chains[node.freq]| - 1 && chains[node.freq][at] == node
      requires node.key in nodeMap && nodeMap[node.key] == node
      modifies this`lists, this`nodes, this`buckets, this`chains, this`info, this`clock
      modifies node`freq, node`since, nodes`pre, nodes`next, nodes`owner, buckets`chain, buckets`cells
      ensures ListsOk() && InfoOk()
      ensures nodeMap == old(nodeMap)
      ensures JoinedTo(old(chains)[old(node.freq) := Without(old(chains)[old(node.freq)], at)],
                       f, head, tail, node, chains)
      ensures info == old(info)[node.key := Entry(old(info)[node.key].value, f, old(clock))] && clock == old(clock) + 1
      ensures GrownSince(old(nodes), old(buckets))
    {
      assert RecordOk(node.key);
      StampUpdate(info, node.key, Entry(node.value, f, node.since), clock);
      Detach(node, f, at);
      head, tail := AddToFreqList(node);
    }

    /** The remove, change, add sequence that getInternal and the aging pass share. */
    method Rebucket(node: Node<K, V>, f: int)
      requires Valid() && node.key in nodeMap && nodeMap[node.key] == node
      modifies this`lists, this`nodes, this`buckets, this`chains, this`info, this`clock
      modifies node`freq, node`since, nodes`pre, nodes`next, nodes`owner, buckets`chain, buckets`cells
      ensures Valid() && old(node.freq) in lists && f in chains && Covers(chains, old(chains))
      ensures info == old(info)[node.key := Entry(old(info)[node.key].value, f, old(clock))] && clock == old(clock) + 1
      ensures GrownSince(old(nodes), old(buckets))
    {
      ghost var x := Index(nodeMap, chains, info);
      assert RecordOk(node.key);
      ghost var at := Locate(x, clock, node.key);
      ghost var head, tail := Move(node, f, at);
      MovedIndexed(x, old(clock), node.key, at, f, head, tail, chains, info);
      assert Indexed(Index(nodeMap, chains, info), clock, None);
    }

    // ----- the operations -----

    predicate NoneOfFreq(f: int)
      requires Valid() && f in lists
      reads this`lists, this`nodeMap, this`chains, this`info, this`nodes, this`buckets, this`clock
      reads buckets`chain, buckets`cells
      reads nodes`owner, nodes`pre, nodes`next, nodes`value, nodes`freq, nodes`since
      ensures NoneOfFreq(f) <==> !HasFreq(info, f)
    {
      EmptyIff(Index(nodeMap, chains, info), clock, f);
      assert ListOk(f);
      lists[f].IsEmpty()
    }

    method SetMinFreq(f: int)
      requires Valid()
      modifies this`minFreq
      ensures Valid() && Abs() == old(Abs()).(minFreq := f)
    {
      minFreq := f;
      assert Valid();
    }

    /** A key has left list `f` for the next one. */
    method AdvanceMinFreq(f: int)
      requires Valid() && f in lists && f + 1 in chains
      modifies this`minFreq
      ensures Valid()
      ensures Abs() == old(Abs()).(minFreq := if f == old(minFreq) && !HasFreq(info, f) then f + 1 else old(minFreq))
      ensures minFreq == old(minFreq) || minFreq in chains
    {
      if f == minFreq && NoneOfFreq(f) { SetMinFreq(minFreq + 1); }
    }

    /** getInternal up to addFreqNum. */
    method Promote(node: Node<K, V>)
      requires Valid() && node.key in nodeMap && nodeMap[node.key] == node
      modifies this`lists, this`nodes, this`buckets, this`chains, this`info, this`clock, this`minFreq
      modifies node`freq, node`since, nodes`pre, nodes`next, nodes`owner, buckets`chain, buckets`cells
      ensures Valid() && Abs() == Touched(old(Abs()), node.key, old(info)[node.key].value)
      ensures Covers(chains, old(chains)) && (old(minFreq) in old(chains) ==> minFreq in chains)
      ensures GrownSince(old(nodes), old(buckets))
    {
      assert RecordOk(node.key);
      var f := node.freq;
      Rebucket(node, f + 1);
      AdvanceMinFreq(f);
    }

    method ScanMin() returns (least: int)
      requires Valid()
      ensures IsCappedMin(info, least) && (least == 1 || least in chains)
    {
      least := INT8_MAX;
      var todo := lists.Keys;
      while todo != {}
        invariant todo <= lists.Keys && least <= INT8_MAX
        invariant forall f :: f in lists && f !in todo && HasFreq(info, f) ==> least <= f
        invariant least < INT8_MAX ==> HasFreq(info, least) && least in chains
        decreases |todo|
      {
        var f := Pick(todo);
        if !NoneOfFreq(f) && f < least { least := f; }
        todo := todo - {f};
      }
      LeastFound(Index(nodeMap, chains, info), clock, least);
      if least == INT8_MAX { least := 1; }
    }

    /** One iteration of handleOverMaxAverageNum. */
    method AgeNode(k: K)
      requires Valid() && k in nodeMap
      modifies this`lists, this`nodes, this`buckets, this`chains, this`info, this`clock
      modifies nodes`freq, nodes`since, nodes`pre, nodes`next, nodes`owner, buckets`chain, buckets`cells
      ensures Valid() && clock == old(clock) + 1
      ensures info == old(info)[k := AgedEntry(Limits(), old(info)[k], old(clock))]
      ensures Covers(chains, old(chains)) && GrownSince(old(nodes), old(buckets))
    {
      assert RecordOk(k);
      var node := nodeMap[k];
      var f := node.freq - Half(maxAverage);
      if f < 1 { f := 1; }
      Rebucket(node, f);
    }

    method AgeNext(k: K, ghost before: map<K, Entry<V>>, ghost start: nat, ghost todo: set<K>)
      requires Valid() && AgedExcept(Limits(), before, start, todo, info, clock) && k in todo && todo <= before.Keys
      modifies this`lists, this`nodes, this`buckets, this`chains, this`info, this`clock
      modifies nodes`freq, nodes`since, nodes`pre, nodes`next, nodes`owner, buckets`chain, buckets`cells
      ensures Valid() && AgedExcept(Limits(), before, start, todo - {k}, info, clock)
      ensures Covers(chains, old(chains)) && GrownSince(old(nodes), old(buckets))
    {
      AgedOne(Limits(), before, start, todo, info, clock, k);
      AgeNode(k);
      assert AgedExcept(Limits(), before, start, todo - {k}, info, clock);
    }

    /** The loop of handleOverMaxAverageNum. */
    method AgeAll()
      requires Valid()
      modifies this`lists, this`nodes, this`buckets, this`chains, this`info, this`clock
      modifies nodes`freq, nodes`since, nodes`pre, nodes`next, nodes`owner, buckets`chain, buckets`cells
      ensures Valid() && AgedExcept(Limits(), old(info), old(clock), {}, info, clock)
      ensures Covers(chains, old(chains)) && GrownSince(old(nodes), old(buckets))
    {
      var todo := nodeMap.Keys;
      ghost var before, start := info, clock;
      AgedNone(Limits(), before, start);
      while todo != {}
        invariant Valid() && todo <= before.Keys
        invariant AgedExcept(Limits(), before, start, todo, info, clock)
        invariant Covers(chains, old(chains)) && GrownSince(old(nodes), old(buckets))
        decreases todo
      {
        var k :| k in todo;
        AgeNext(k, before, start, todo);
        todo := todo - {k};
      }
    }

    /** updateMinFreq. */
    method UpdateMinFreq(ghost s: State<K, V>)
      requires Valid() && AgedExcept(Limits(), s.entries, s.clock, {}, info, clock) && total == s.total
      modifies this`minFreq
      ensures Valid() && Ages(Limits(), s, Abs()) && (minFreq == 1 || minFreq in chains)
    {
      var least := ScanMin();
      AgedAll(Limits(), s, State(info, least, total, clock));
      SetMinFreq(least);
    }

    /** handleOverMaxAverageNum on a cache that is not empty. */
    method Age()
      requires Valid()
      modifies this`lists, this`nodes, this`buckets, this`chains, this`info, this`clock, this`minFreq
      modifies nodes`freq, nodes`since, nodes`pre, nodes`next, nodes`owner, buckets`chain, buckets`cells
      ensures Valid() && Ages(Limits(), old(Abs()), Abs())
      ensures Covers(chains, old(chains)) && (minFreq == 1 || minFreq in chains)
      ensures GrownSince(old(nodes), old(buckets))
    {
      AgeAll();
      UpdateMinFreq(old(Abs()));
    }

    /** handleOverMaxAverageNum. */
    method HandleOverMaxAverageNum()
      requires Valid()
      modifies this`lists, this`nodes, this`buckets, this`chains, this`info, this`clock, this`minFreq
      modifies nodes`freq, nodes`since, nodes`pre, nodes`next, nodes`owner, buckets`chain, buckets`cells
      ensures Valid() && if old(info) == map[] then Abs() == old(Abs()) else Ages(Limits(), old(Abs()), Abs())
      ensures Covers(chains, old(chains)) && (minFreq == old(minFreq) || minFreq == 1 || minFreq in chains)
      ensures GrownSince(old(nodes), old(buckets))
    {
      if |nodeMap| != 0 { Age(); }
    }

    /** addFreqNum up to the test of the limit. */
    method CountAccess()
      requires Valid()
      modifies this`total, this`average
      ensures Valid() && total == old(total) + 1 && average == Average(total, |nodeMap|)
      ensures info != map[] ==> (average > maxAverage <==> OverAverage(Limits(), Abs()))
    {
      total := total + 1;
      average := Average(total, |nodeMap|);
      assert Valid();
      assert |info.Keys| == |nodeMap.Keys|;
    }

    /** addFreqNum. */
    method AddFreqNum()
      requires Valid()
      modifies this`total, this`average
      modifies this`lists, this`nodes, this`buckets, this`chains, this`info, this`clock, this`minFreq
      modifies nodes`freq, nodes`since, nodes`pre, nodes`next, nodes`owner, buckets`chain, buckets`cells
      ensures Valid() && Counts(Limits(), old(Abs()), Abs())
      ensures Covers(chains, old(chains)) && (minFreq == old(minFreq) || minFreq == 1 || minFreq in chains)
      ensures GrownSince(old(nodes), old(buckets))
    {
      CountAccess();
      if average > maxAverage { HandleOverMaxAverageNum(); }
    }

    /** getInternal. */
    method GetInternal(node: Node<K, V>) returns (value: V)
      requires Valid() && node.key in nodeMap && nodeMap[node.key] == node
      modifies this`total, this`average
      modifies this`lists, this`nodes, this`buckets, this`chains, this`info, this`clock, this`minFreq
      modifies nodes`freq, nodes`since, nodes`pre, nodes`next, nodes`owner, buckets`chain, buckets`cells
      ensures Valid() && value == old(info)[node.key].value && Hit(Limits(), old(Abs()), node.key, value, Abs())
      ensures Covers(chains, old(chains)) && (old(minFreq) in old(chains) ==> minFreq == 1 || minFreq in chains)
      ensures GrownSince(old(nodes), old(buckets))
    {
      assert RecordOk(node.key);
      value := node.value;
      Promote(node);
      AddFreqNum();
    }

    /** The cache has a node in the list that kickOut looks at. */
    ghost predicate Evictable()
      reads this`info, this`minFreq
    {
      HasFreq(info, minFreq)
    }

    /** The front node of the list for minFreq_: a member that may be taken out, or the tail sentinel. */
    method FrontNode() returns (node: Node<K, V>)
      requires Valid() && minFreq in chains
      ensures node in nodes && FoundAtFront(Abs(), blank, node.key, node.freq)
      ensures if !Evictable() then node.next == null
              else && node.next != null && node.freq == minFreq && |chains[minFreq]| > 2 && chains[minFreq][1] == node
                   && Indexed(Removed(Index(nodeMap, chains, info), minFreq, 1), clock, Some(node.key))
    {
      assert ListOk(minFreq);
      node := lists[minFreq].First();
      if !NoneOfFreq(minFreq) {
        FirstIsOldest(Index(nodeMap, chains, info), clock, minFreq);
        assert RecordOk(node.key);
        Successor(node, 1);
      }
    }

    /** kickOut up to the erasure: the front node of the list for minFreq_ is taken out of it; if that
        list is empty, its "front node" is the tail sentinel, and nothing changes. */
    method TakeVictim() returns (node: Node<K, V>)
      requires Valid() && minFreq in chains && 1 in chains
      modifies this`chains, nodes`pre, nodes`next, nodes`owner, buckets`chain, buckets`cells
      ensures ListsOk() && InfoOk() && nodeMap == old(nodeMap) && Abs() == old(Abs())
      ensures Indexed(Index(nodeMap, chains, info), clock, if Evictable() then Some(node.key) else None)
      ensures FoundAtFront(Abs(), blank, node.key, node.freq)
    {
      node := FrontNode();
      RemoveFromFreqList(node, 1);
      assert Indexed(Index(nodeMap, chains, info), clock, if Evictable() then Some(node.key) else None);
    }

    /** The erasure of a key from nodeMap_, after its node has been unlinked (`loose`) or not. */
    method Forget(k: K, ghost loose: bool)
      requires ListsOk() && InfoOk() && Indexed(Index(nodeMap, chains, info), clock, if loose then Some(k) else None)
      modifies this`nodeMap, this`info
      ensures ListsOk() && InfoOk() && Abs() == old(Abs()).(entries := old(info) - {k})
      ensures Valid() <==> loose || k !in old(nodeMap)
    {
      ghost var x := Index(nodeMap, chains, info);
      if loose { DropLoose(x, clock, k); } else { ErasureIff(x, clock, k); }
      nodeMap, info := nodeMap - {k}, info - {k};
      forall j | j in nodeMap ensures RecordOk(j) { assert old(RecordOk(j)); }
      assert Index(nodeMap, chains, info) == Erased(x, k);
    }

    /** decreaseFreqNum. */
    method DecreaseFreqNum(num: int)
      requires ListsOk() && InfoOk()
      modifies this`total, this`average
      ensures ListsOk() && InfoOk() && (Valid() <==> old(Valid()))
      ensures Abs() == old(Abs()).(total := old(total) - num) && average == Average(total, |nodeMap|)
    {
      total := total - num;
      average := Average(total, |nodeMap|);
      assert ListsOk() && InfoOk();
    }

    /** kickOut from the erasure on. */
    method Expel(k: K, num: int, ghost loose: bool)
      requires ListsOk() && InfoOk() && Indexed(Index(nodeMap, chains, info), clock, if loose then Some(k) else None)
      modifies this`nodeMap, this`info, this`total, this`average
      ensures ListsOk() && InfoOk() && (Valid() <==> loose || k !in old(nodeMap))
      ensures Abs() == old(Abs()).(entries := old(info) - {k}, total := old(total) - num)
    {
      Forget(k, loose);
      DecreaseFreqNum(num);
    }

    /** kickOut.  Map and lists agree afterwards exactly if some key has frequency minFreq_ or the
        sentinels' key is not cached; otherwise the latter's node stays in its list and in no map. */
    method KickOut() returns (ghost victim: K, ghost freq: int)
      requires Valid() && minFreq in chains && 1 in chains
      modifies this`total, this`average, this`nodeMap, this`info
      modifies this`chains, nodes`pre, nodes`next, nodes`owner, buckets`chain, buckets`cells
      ensures ListsOk() && InfoOk() && FoundAtFront(old(Abs()), blank, victim, freq)
      ensures Abs() == old(Abs()).(entries := old(info) - {victim}, total := old(total) - freq)
      ensures Valid() <==> old(Evictable()) || blank !in old(nodeMap)
    {
      var node := TakeVictim();
      victim, freq := node.key, node.freq;
      Expel(node.key, node.freq, Evictable());
    }

    method Enter(node: Node<K, V>)
      requires Valid() && node !in nodes && node.key !in nodeMap
      modifies this`nodes, this`nodeMap, this`info
      ensures ListsOk() && InfoOk() && Indexed(Index(nodeMap, chains, info), clock, Some(node.key))
      ensures nodes == old(nodes) + {node} && nodeMap == old(nodeMap)[node.key := node]
      ensures Abs() == old(Abs()).(entries := old(info)[node.key := Entry(node.value, node.freq, node.since)])
    {
      ghost var e := Entry(node.value, node.freq, node.since);
      NewNode(Index(nodeMap, chains, info), clock, node, e);
      nodes, nodeMap, info := nodes + {node}, nodeMap[node.key := node], info[node.key := e];
      forall j | j in nodeMap ensures RecordOk(j) { if j != node.key { assert old(RecordOk(j)); } }
      forall f | f in lists ensures ListOk(f) { assert old(ListOk(f)); }
      assert Indexed(Index(nodeMap, chains, info), clock, Some(node.key));
    }

    method LinkNew(node: Node<K, V>)
      requires ListsOk() && InfoOk() && node.owner == null && node.key in nodeMap && nodeMap[node.key] == node
      requires Indexed(Index(nodeMap, chains, info), clock, Some(node.key))
      modifies this`lists, this`nodes, this`buckets, this`chains, this`info, this`clock, node`since
      modifies nodes`pre, nodes`next, nodes`owner, buckets`chain, buckets`cells
      ensures Valid() && node.freq in chains
      ensures Abs() == old(Abs()).(entries := Stamp(old(info), node.key, old(clock)), clock := old(clock) + 1)
      ensures GrownSince(old(nodes), old(buckets))
    {
      assert RecordOk(node.key);
      ghost var x := Index(nodeMap, chains, info);
      ghost var head, tail := AddToFreqList(node);
      JoinedIndexed(x, old(clock), node.key, head, tail, chains);
      assert Indexed(Index(nodeMap, chains, info), clock, None);
    }

    /** putInternal: the new node and its list. */
    method AddNew(k: K, v: V)
      requires Valid() && k !in nodeMap
      modifies this`nodeMap, this`lists, this`nodes, this`buckets, this`chains, this`info, this`clock
      modifies nodes`pre, nodes`next, nodes`owner, buckets`chain, buckets`cells
      ensures Valid() && Abs() == Inserted(old(Abs()), k, v) && 1 in chains
      ensures GrownSince(old(nodes), old(buckets))
    {
      StampUpdate(info, k, Entry(v, 1, 0), clock);
      var node := new Node(k, v);
      Enter(node);
      LinkNew(node);
    }

    method CapMin()
      requires Valid()
      modifies this`minFreq
      ensures Valid() && Abs() == CapAtOne(old(Abs()))
    {
      if 1 < minFreq { SetMinFreq(1); }
    }

    /** The new node, counted. */
    method CountNew(k: K, v: V)
      requires Valid() && k !in nodeMap
      modifies this`nodeMap, this`total, this`average
      modifies this`lists, this`nodes, this`buckets, this`chains, this`info, this`clock, this`minFreq
      modifies nodes`freq, nodes`since, nodes`pre, nodes`next, nodes`owner, buckets`chain, buckets`cells
      ensures Valid() && Counts(Limits(), Inserted(old(Abs()), k, v), Abs()) && 1 in chains
      ensures GrownSince(old(nodes), old(buckets))
    {
      AddNew(k, v);
      AddFreqNum();
    }

    method InsertNew(k: K, v: V)
      requires Valid() && k !in nodeMap
      modifies this`nodeMap, this`total, this`average
      modifies this`lists, this`nodes, this`buckets, this`chains, this`info, this`clock, this`minFreq
      modifies nodes`freq, nodes`since, nodes`pre, nodes`next, nodes`owner, buckets`chain, buckets`cells
      ensures Valid() && Insert(Limits(), old(Abs()), k, v, Abs()) && 1 in chains
      ensures GrownSince(old(nodes), old(buckets))
    {
      CountNew(k, v);
      ghost var u := Abs();
      CapMin();
      assert Counts(Limits(), Inserted(old(Abs()), k, v), u) && Abs() == CapAtOne(u);
    }

    /** putInternal up to the new node. */
    method MakeRoom()
      requires Valid() && capacity != 0
      requires |nodeMap| == capacity ==> Anchored() && (Evictable() || blank !in nodeMap)
      modifies this`total, this`average, this`nodeMap, this`info
      modifies this`chains, nodes`pre, nodes`next, nodes`owner, buckets`chain, buckets`cells
      ensures Valid() && MakesRoom(Limits(), old(Abs()), Abs()) && info.Keys <= old(info.Keys)
    {
      assert |info.Keys| == |nodeMap.Keys|;
      if |nodeMap| == capacity { EvictOne(); }
    }

    /** kickOut where it leaves map and lists in agreement. */
    method EvictOne()
      requires Valid() && minFreq in chains && 1 in chains && (Evictable() || blank !in nodeMap)
      modifies this`total, this`average, this`nodeMap, this`info
      modifies this`chains, nodes`pre, nodes`next, nodes`owner, buckets`chain, buckets`cells
      ensures Valid() && Evicts(Limits(), old(Abs()), Abs()) && info.Keys <= old(info.Keys)
    {
      ghost var victim, freq := KickOut();
      FrontEvicts(Limits(), old(Abs()), victim, freq);
    }

    /** putInternal. */
    method PutInternal(k: K, v: V)
      requires Valid() && k !in nodeMap && capacity != 0
      requires |nodeMap| == capacity ==> Anchored() && (Evictable() || blank !in nodeMap)
      modifies this`nodeMap, this`total, this`average
      modifies this`lists, this`nodes, this`buckets, this`chains, this`info, this`clock, this`minFreq
      modifies nodes`freq, nodes`since, nodes`pre, nodes`next, nodes`owner, buckets`chain, buckets`cells
      ensures Valid() && Miss(Limits(), old(Abs()), k, v, Abs()) && 1 in chains
      ensures GrownSince(old(nodes), old(buckets))
    {
      MakeRoom();
      ghost var u := Abs();
      InsertNew(k, v);
      assert MakesRoom(Limits(), old(Abs()), u) && Insert(Limits(), u, k, v, Abs());
    }

    method SetValue(node: Node<K, V>, v: V)
      requires Valid() && node.key in nodeMap && nodeMap[node.key] == node
      modifies this`info, node`value
      ensures Valid() && info == old(info)[node.key := old(info)[node.key].(value := v)]
    {
      Revalue(Index(nodeMap, chains, info), clock, node.key, v);
      node.value := v;
      info := info[node.key := info[node.key].(value := v)];
      forall j | j in nodeMap ensures RecordOk(j) { assert old(RecordOk(j)) && old(RecordOk(node.key)); }
      assert Indexed(Index(nodeMap, chains, info), clock, None);
    }

    method Overwrite(node: Node<K, V>, v: V)
      requires Valid() && node.key in nodeMap && nodeMap[node.key] == node && node in nodes
      modifies this`total, this`average, node`value
      modifies this`lists, this`nodes, this`buckets, this`chains, this`info, this`clock, this`minFreq
      modifies nodes`freq, nodes`since, nodes`pre, nodes`next, nodes`owner, buckets`chain, buckets`cells
      ensures Valid() && Hit(Limits(), old(Abs()), node.key, v, Abs())
      ensures Covers(chains, old(chains)) && (old(minFreq) in old(chains) ==> minFreq == 1 || minFreq in chains)
      ensures GrownSince(old(nodes), old(buckets))
    {
      SetValue(node, v);
      RevaluedHit(old(Abs()), node.key, v);
      var _ := GetInternal(node);
    }

    /** put. */
    method Put(k: K, v: V)
      requires Valid() && Anchored()
      requires !Strays(Limits(), Abs(), Op.Put(k, v))
      modifies this, nodes, buckets
      ensures Valid() && Anchored() && Step(Limits(), old(Abs()), Op.Put(k, v), Abs())
      ensures GrownSince(old(nodes), old(buckets))
    {
      if capacity == 0 { return; }
      if k in nodeMap {
        assert RecordOk(k);
        Overwrite(nodeMap[k], v);
        HitPositive(Limits(), old(Abs()), k, v, Abs());
      } else {
        PutInternal(k, v);
        MissPositive(Limits(), old(Abs()), k, v, Abs());
      }
    }

    /** Whether a put would make kickOut erase the sentinels' key from under its node. */
    predicate WouldStray(k: K)
      requires Valid() && Anchored()
      reads this`lists, this`nodeMap, this`chains, this`info, this`nodes, this`buckets, this`clock
      reads this`minFreq, this`total, buckets`chain, buckets`cells
      reads nodes`owner, nodes`pre, nodes`next, nodes`value, nodes`freq, nodes`since
      ensures forall v :: WouldStray(k) <==> Strays(Limits(), Abs(), Op.Put(k, v))
    {
      assert |info.Keys| == |nodeMap.Keys|;
      capacity != 0 && k !in nodeMap && |nodeMap| == capacity && blank in nodeMap && NoneOfFreq(minFreq)
    }

    /** get. */
    method Get(k: K) returns (r: Option<V>)
      requires Valid() && Anchored()
      modifies this, nodes, buckets
      ensures Valid() && Anchored() && Step(Limits(), old(Abs()), Op.Get(k), Abs())
      ensures r == if k in old(info) then Some(old(info)[k].value) else None
      ensures GrownSince(old(nodes), old(buckets))
    {
      if k in nodeMap {
        assert RecordOk(k);
        var v := GetInternal(nodeMap[k]);
        r := Some(v);
        HitPositive(Limits(), old(Abs()), k, v, Abs());
      } else {
        r := None;
      }
    }

    /** purge. */
    method Purge()
      requires Valid()
      modifies this`nodeMap, this`lists, this`chains, this`info
      ensures Valid() && Step(Limits(), old(Abs()), Op.Purge, Abs()) && (old(Anchored()) ==> Anchored())
    {
      nodeMap, lists, chains, info := map[], map[], map[], map[];
    }
  }
}
