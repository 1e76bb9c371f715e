/** Which node is in which frequency list: the bookkeeping of RLfuCache apart from the heap.
    The quantifiers below fire only where a proof names the key or the list it is about. */
module LfuIndex {
  import opened FreqLists
  import opened LfuPolicy
  import opened Wrappers

  ghost predicate Inside<T>(chain: seq<T>, x: T) { exists i :: 0 < i < |chain| - 1 && chain[i] == x }

  /** The key map, the lists (with their sentinels) and what the nodes record. */
  datatype Index<K(0), V(0)> =
    Index(nodeMap: map<K, Node<K, V>>, chains: map<int, seq<Node<K, V>>>, info: map<K, Entry<V>>)

  /** A cached node is in the list of its own frequency; the node of key `loose` may be in none. */
  ghost predicate NodeOk<K(0), V(0)>(x: Index<K, V>, now: nat, loose: Option<K>, k: K) {
    && k in x.nodeMap && k in x.info && x.nodeMap[k].key == k
    && (loose != Some(k) ==>
          && x.info[k].since < now
          && x.info[k].freq in x.chains && Inside(x.chains[x.info[k].freq], x.nodeMap[k]))
  }

  /** A member of list `f` is cached and its record says `f`. */
  ghost predicate MemberOk<K(0), V(0)>(x: Index<K, V>, loose: Option<K>, f: int, node: Node<K, V>) {
    var k := node.key;
    k in x.nodeMap && x.nodeMap[k] == node && k in x.info && x.info[k].freq == f && loose != Some(k)
  }

  /** A list holds such members only, in order of arrival. */
  ghost predicate LaneOk<K(0), V(0)>(x: Index<K, V>, loose: Option<K>, f: int) {
    && f in x.chains && |x.chains[f]| >= 2
    && (forall i :: 0 < i < |x.chains[f]| - 1 ==> MemberOk(x, loose, f, x.chains[f][i]))
    && (forall i, j :: 0 < i < j < |x.chains[f]| - 1 ==>
          x.info[x.chains[f][i].key].since < x.info[x.chains[f][j].key].since)
  }

  ghost predicate Indexed<K(0), V(0)>(x: Index<K, V>, now: nat, loose: Option<K>) {
    && x.info.Keys == x.nodeMap.Keys
    && (forall k {:trigger NodeOk(x, now, loose, k)} :: k in x.nodeMap ==> NodeOk(x, now, loose, k))
    && (forall f {:trigger LaneOk(x, loose, f)} :: f in x.chains ==> LaneOk(x, loose, f))
  }

  lemma Locate<K(0), V(0)>(x: Index<K, V>, now: nat, k: K) returns (at: nat)
    requires Indexed(x, now, None) && k in x.nodeMap
    ensures x.nodeMap[k].key == k && x.info[k].freq in x.chains
    ensures 0 < at < |x.chains[x.info[k].freq]| - 1 && x.chains[x.info[k].freq][at] == x.nodeMap[k]
  {
    assert NodeOk(x, now, None, k);
    at :| 0 < at < |x.chains[x.info[k].freq]| - 1 && x.chains[x.info[k].freq][at] == x.nodeMap[k];
  }

  /** Wherever a cached node is found, it is in the list of its own frequency, at one place. */
  lemma InExactlyOneList<K(0), V(0)>(x: Index<K, V>, now: nat, k: K, f: int, i: nat, g: int, j: nat)
    requires Indexed(x, now, None) && k in x.nodeMap && f in x.chains && g in x.chains
    requires 0 < i < |x.chains[f]| - 1 && x.chains[f][i] == x.nodeMap[k]
    requires 0 < j < |x.chains[g]| - 1 && x.chains[g][j] == x.nodeMap[k]
    ensures f == g == x.info[k].freq && i == j
  {
    assert NodeOk(x, now, None, k) && LaneOk(x, None, f) && LaneOk(x, None, g);
    assert MemberOk(x, None, f, x.chains[f][i]) && MemberOk(x, None, g, x.chains[g][j]);
  }

  // ----- unlinking -----

  lemma InsideRemoved<T>(chain: seq<T>, at: nat, x: T)
    requires 0 < at < |chain| - 1 && Inside(chain, x) && chain[at] != x
    ensures Inside(Without(chain, at), x)
  {
    var i :| 0 < i < |chain| - 1 && chain[i] == x;
    assert Without(chain, at)[if i < at then i else i - 1] == x;
  }

  ghost function Removed<K(0), V(0)>(x: Index<K, V>, f: int, at: nat): Index<K, V>
    requires f in x.chains && at < |x.chains[f]|
  {
    x.(chains := x.chains[f := Without(x.chains[f], at)])
  }

  /** Two members of a list have different keys, since they arrived at different moments. */
  lemma RemovedLane<K(0), V(0)>(x: Index<K, V>, k: K, at: nat)
    requires k in x.info && LaneOk(x, None, x.info[k].freq)
    requires 0 < at < |x.chains[x.info[k].freq]| - 1 && x.chains[x.info[k].freq][at].key == k
    ensures LaneOk(Removed(x, x.info[k].freq, at), Some(k), x.info[k].freq)
  {
    var f := x.info[k].freq;
    var c, d := x.chains[f], Without(x.chains[f], at);
    forall i | 0 < i < |c| - 1 && i != at ensures MemberOk(Removed(x, f, at), Some(k), f, c[i]) {
      assert MemberOk(x, None, f, c[i]);
    }
    forall i | 0 < i < |d| - 1 ensures MemberOk(Removed(x, f, at), Some(k), f, d[i]) {
      assert d[i] == c[if i < at then i else i + 1];
    }
  }

  lemma OtherLane<K(0), V(0)>(x: Index<K, V>, k: K, f: int)
    requires LaneOk(x, None, f) && k in x.info && f != x.info[k].freq
    ensures LaneOk(x, Some(k), f)
  {
    forall i | 0 < i < |x.chains[f]| - 1 ensures MemberOk(x, Some(k), f, x.chains[f][i]) {
      assert MemberOk(x, None, f, x.chains[f][i]);
    }
  }

  /** What is said of a list depends on that list alone. */
  lemma SameLane<K(0), V(0)>(x: Index<K, V>, y: Index<K, V>, loose: Option<K>, f: int)
    requires LaneOk(x, loose, f) && f in y.chains && y.chains[f] == x.chains[f]
    requires forall k :: k in x.nodeMap && k in x.info && loose != Some(k) ==>
               && k in y.nodeMap && y.nodeMap[k] == x.nodeMap[k]
               && k in y.info && y.info[k].freq == x.info[k].freq && y.info[k].since == x.info[k].since
    ensures LaneOk(y, loose, f)
  {
    forall i | 0 < i < |x.chains[f]| - 1
      ensures MemberOk(y, loose, f, x.chains[f][i])
      ensures y.info[x.chains[f][i].key].since == x.info[x.chains[f][i].key].since
    {
      assert MemberOk(x, loose, f, x.chains[f][i]);
    }
  }

  lemma RemovedIndexed<K(0), V(0)>(x: Index<K, V>, now: nat, k: K, at: nat)
    requires Indexed(x, now, None) && k in x.nodeMap && x.info[k].freq in x.chains
    requires 0 < at < |x.chains[x.info[k].freq]| - 1 && x.chains[x.info[k].freq][at] == x.nodeMap[k]
    ensures Indexed(Removed(x, x.info[k].freq, at), now, Some(k))
  {
    var f := x.info[k].freq;
    var y := Removed(x, f, at);
    assert NodeOk(x, now, None, k);
    forall j | j in y.nodeMap ensures NodeOk(y, now, Some(k), j) {
      assert NodeOk(x, now, None, j);
      if j != k && x.info[j].freq == f { InsideRemoved(x.chains[f], at, x.nodeMap[j]); }
    }
    forall g | g in y.chains ensures LaneOk(y, Some(k), g) {
      assert LaneOk(x, None, g);
      if g == f {
        RemovedLane(x, k, at);
      } else {
        OtherLane(x, k, g);
        SameLane(x, y, Some(k), g);
      }
    }
  }

  // ----- linking at the back -----

  lemma InsideAdded<T>(chain: seq<T>, node: T, x: T)
    requires |chain| >= 2 && (Inside(chain, x) || x == node)
    ensures Inside(BeforeLast(chain, node), x)
  {
    if x == node {
      assert BeforeLast(chain, node)[|chain| - 1] == x;
    } else {
      var i :| 0 < i < |chain| - 1 && chain[i] == x;
      assert BeforeLast(chain, node)[i] == x;
    }
  }

  ghost function Stamp<K, V>(info: map<K, Entry<V>>, k: K, now: nat): map<K, Entry<V>>
    requires k in info
  {
    info[k := info[k].(since := now)]
  }

  lemma StampUpdate<K, V>(m: map<K, Entry<V>>, k: K, e: Entry<V>, now: nat)
    ensures Stamp(m[k := e], k, now) == m[k := e.(since := now)]
  {
  }

  ghost function Added<K(0), V(0)>(x: Index<K, V>, k: K, now: nat): Index<K, V>
    requires k in x.nodeMap && k in x.info && x.info[k].freq in x.chains && x.chains[x.info[k].freq] != []
  {
    var f := x.info[k].freq;
    Index(x.nodeMap, x.chains[f := BeforeLast(x.chains[f], x.nodeMap[k])], Stamp(x.info, k, now))
  }

  lemma AddedLane<K(0), V(0)>(x: Index<K, V>, k: K, now: nat)
    requires k in x.nodeMap && k in x.info && x.nodeMap[k].key == k && LaneOk(x, Some(k), x.info[k].freq)
    requires forall i :: 0 < i < |x.chains[x.info[k].freq]| - 1 ==>
               x.info[x.chains[x.info[k].freq][i].key].since < now
    ensures LaneOk(Added(x, k, now), None, x.info[k].freq)
  {
    var f := x.info[k].freq;
    var y := Added(x, k, now);
    var c, d := x.chains[f], y.chains[f];
    forall i | 0 < i < |c| - 1 ensures MemberOk(y, None, f, c[i]) && y.info[c[i].key] == x.info[c[i].key] {
      assert MemberOk(x, Some(k), f, c[i]);
    }
    assert forall i :: 0 < i < |d| - 2 ==> d[i] == c[i];
  }

  lemma AddedNode<K(0), V(0)>(x: Index<K, V>, k: K, now: nat, j: K)
    requires k in x.nodeMap && k in x.info && x.info[k].freq in x.chains && |x.chains[x.info[k].freq]| >= 2
    requires NodeOk(x, now, Some(k), j)
    ensures NodeOk(Added(x, k, now), now + 1, None, j)
  {
    if x.info[j].freq == x.info[k].freq && (j == k || Inside(x.chains[x.info[k].freq], x.nodeMap[j])) {
      InsideAdded(x.chains[x.info[k].freq], x.nodeMap[k], x.nodeMap[j]);
    }
  }

  lemma AddedLanes<K(0), V(0)>(x: Index<K, V>, k: K, now: nat, g: int)
    requires Indexed(x, now, Some(k)) && k in x.nodeMap && x.info[k].freq in x.chains && g in x.chains
    requires x.chains[x.info[k].freq] != []
    ensures LaneOk(Added(x, k, now), None, g)
  {
    var f := x.info[k].freq;
    assert LaneOk(x, Some(k), g) && NodeOk(x, now, Some(k), k);
    if g == f {
      forall i | 0 < i < |x.chains[f]| - 1 ensures x.info[x.chains[f][i].key].since < now {
        assert MemberOk(x, Some(k), f, x.chains[f][i]);
        assert NodeOk(x, now, Some(k), x.chains[f][i].key);
      }
      AddedLane(x, k, now);
    } else {
      SameLane(x, Added(x, k, now), Some(k), g);
    }
  }

  lemma AddedIndexed<K(0), V(0)>(x: Index<K, V>, k: K, now: nat)
    requires Indexed(x, now, Some(k)) && k in x.nodeMap && x.info[k].freq in x.chains && x.chains[x.info[k].freq] != []
    ensures Indexed(Added(x, k, now), now + 1, None)
  {
    var y := Added(x, k, now);
    assert LaneOk(x, Some(k), x.info[k].freq) && NodeOk(x, now, Some(k), k);
    forall j | j in y.nodeMap ensures NodeOk(y, now + 1, None, j) {
      assert NodeOk(x, now, Some(k), j);
      AddedNode(x, k, now, j);
    }
    forall g | g in y.chains ensures LaneOk(y, None, g) { AddedLanes(x, k, now, g); }
  }

  // ----- smaller changes -----

  /** A node that is in no list may change its record. */
  lemma RewriteLoose<K(0), V(0)>(x: Index<K, V>, now: nat, k: K, e: Entry<V>)
    requires Indexed(x, now, Some(k)) && k in x.info
    ensures Indexed(x.(info := x.info[k := e]), now, Some(k))
  {
    var y := x.(info := x.info[k := e]);
    forall j | j in y.nodeMap ensures NodeOk(y, now, Some(k), j) { assert NodeOk(x, now, Some(k), j); }
    forall f | f in y.chains ensures LaneOk(y, Some(k), f) {
      assert LaneOk(x, Some(k), f);
      SameLane(x, y, Some(k), f);
    }
  }

  lemma Revalue<K(0), V(0)>(x: Index<K, V>, now: nat, k: K, v: V)
    requires Indexed(x, now, None) && k in x.info
    ensures Indexed(x.(info := x.info[k := x.info[k].(value := v)]), now, None)
  {
    var y := x.(info := x.info[k := x.info[k].(value := v)]);
    forall j | j in y.nodeMap ensures NodeOk(y, now, None, j) { assert NodeOk(x, now, None, j); }
    forall f | f in y.chains ensures LaneOk(y, None, f) {
      assert LaneOk(x, None, f);
      SameLane(x, y, None, f);
    }
  }

  ghost function WithList<T>(chains: map<int, seq<T>>, f: int, head: T, tail: T): map<int, seq<T>> {
    if f in chains then chains else chains[f := [head, tail]]
  }

  /** addToFreqList: the list for `f` is created if need be, and `node` goes to its back. */
  ghost predicate JoinedTo<T>(before: map<int, seq<T>>, f: int, head: T, tail: T, node: T, after: map<int, seq<T>>) {
    var c := WithList(before, f, head, tail);
    c[f] != [] && after == c[f := BeforeLast(c[f], node)]
  }

  /** No list has gone. */
  ghost predicate Covers<T>(after: map<int, seq<T>>, before: map<int, seq<T>>) {
    forall f {:trigger f in before} :: f in before ==> f in after
  }

  lemma EmptyList<K(0), V(0)>(x: Index<K, V>, now: nat, loose: Option<K>, f: int, h: Node<K, V>, t: Node<K, V>)
    requires Indexed(x, now, loose) && f !in x.chains
    ensures Indexed(x.(chains := x.chains[f := [h, t]]), now, loose)
  {
    var y := x.(chains := x.chains[f := [h, t]]);
    forall j | j in y.nodeMap ensures NodeOk(y, now, loose, j) { assert NodeOk(x, now, loose, j); }
    forall g | g in y.chains ensures LaneOk(y, loose, g) {
      if g != f {
        assert LaneOk(x, loose, g);
        SameLane(x, y, loose, g);
      }
    }
  }

  lemma JoinedIndexed<K(0), V(0)>(x: Index<K, V>, now: nat, k: K, head: Node<K, V>, tail: Node<K, V>,
                                  chains: map<int, seq<Node<K, V>>>)
    requires Indexed(x, now, Some(k)) && k in x.nodeMap
    requires JoinedTo(x.chains, x.info[k].freq, head, tail, x.nodeMap[k], chains)
    ensures Indexed(Index(x.nodeMap, chains, Stamp(x.info, k, now)), now + 1, None)
  {
    var f := x.info[k].freq;
    if f !in x.chains {
      EmptyList(x, now, Some(k), f, head, tail);
    }
    AddedIndexed(x.(chains := WithList(x.chains, f, head, tail)), k, now);
  }

  /** Remove, change the frequency, add: every record stays in the list of its own frequency. */
  lemma MovedIndexed<K(0), V(0)>(x: Index<K, V>, now: nat, k: K, at: nat, f: int, head: Node<K, V>, tail: Node<K, V>,
                                 chains: map<int, seq<Node<K, V>>>, info: map<K, Entry<V>>)
    requires Indexed(x, now, None) && k in x.nodeMap && x.info[k].freq in x.chains
    requires 0 < at < |x.chains[x.info[k].freq]| - 1 && x.chains[x.info[k].freq][at] == x.nodeMap[k]
    requires JoinedTo(Removed(x, x.info[k].freq, at).chains, f, head, tail, x.nodeMap[k], chains)
    requires info == x.info[k := Entry(x.info[k].value, f, now)]
    ensures Indexed(Index(x.nodeMap, chains, info), now + 1, None)
    ensures f in chains && Covers(chains, x.chains)
  {
    RemovedIndexed(x, now, k, at);
    var y := Removed(x, x.info[k].freq, at);
    var e := x.info[k].(freq := f);
    RewriteLoose(y, now, k, e);
    StampUpdate(x.info, k, e, now);
    JoinedIndexed(y.(info := y.info[k := e]), now, k, head, tail, chains);
  }

  lemma NewNode<K(0), V(0)>(x: Index<K, V>, now: nat, node: Node<K, V>, e: Entry<V>)
    requires Indexed(x, now, None) && node.key !in x.nodeMap
    ensures Indexed(x.(nodeMap := x.nodeMap[node.key := node], info := x.info[node.key := e]), now, Some(node.key))
  {
    var k := node.key;
    var y := x.(nodeMap := x.nodeMap[k := node], info := x.info[k := e]);
    forall j | j in y.nodeMap ensures NodeOk(y, now, Some(k), j) {
      if j != k { assert NodeOk(x, now, None, j); }
    }
    forall f | f in y.chains ensures LaneOk(y, Some(k), f) {
      assert LaneOk(x, None, f);
      SameLane(x, y, None, f);
      forall i | 0 < i < |x.chains[f]| - 1 ensures MemberOk(y, Some(k), f, x.chains[f][i]) {
        assert MemberOk(x, None, f, x.chains[f][i]);
      }
    }
  }

  lemma DropLoose<K(0), V(0)>(x: Index<K, V>, now: nat, k: K)
    requires Indexed(x, now, Some(k))
    ensures Indexed(x.(nodeMap := x.nodeMap - {k}, info := x.info - {k}), now, None)
  {
    var y := x.(nodeMap := x.nodeMap - {k}, info := x.info - {k});
    forall j | j in y.nodeMap ensures NodeOk(y, now, None, j) { assert NodeOk(x, now, Some(k), j); }
    forall f | f in y.chains ensures LaneOk(y, None, f) {
      assert LaneOk(x, Some(k), f);
      SameLane(x, y, Some(k), f);
      forall i | 0 < i < |x.chains[f]| - 1 ensures MemberOk(y, None, f, x.chains[f][i]) {
        assert MemberOk(x, Some(k), f, x.chains[f][i]);
      }
    }
  }

  ghost function Erased<K(0), V(0)>(x: Index<K, V>, k: K): Index<K, V> {
    x.(nodeMap := x.nodeMap - {k}, info := x.info - {k})
  }

  /** Erasing a key without unlinking its node keeps map and lists in agreement exactly if the key was
      not there: otherwise the node stays in its list and in no map. */
  lemma ErasureIff<K(0), V(0)>(x: Index<K, V>, now: nat, k: K)
    requires Indexed(x, now, None)
    ensures Indexed(Erased(x, k), now, None) <==> k !in x.nodeMap
  {
    var y := Erased(x, k);
    if k in x.nodeMap {
      var at := Locate(x, now, k);
      var f := x.info[k].freq;
      assert !MemberOk(y, None, f, y.chains[f][at]);
      assert !LaneOk(y, None, f);
    } else {
      assert y == x;
    }
  }

  // ----- reading the lists -----

  lemma EmptyIff<K(0, !new), V(0, !new)>(x: Index<K, V>, now: nat, f: int)
    requires Indexed(x, now, None) && f in x.chains
    ensures |x.chains[f]| == 2 <==> !HasFreq(x.info, f)
  {
    assert LaneOk(x, None, f);
    if |x.chains[f]| > 2 {
      assert MemberOk(x, None, f, x.chains[f][1]);
    }
    forall k | k in x.info && x.info[k].freq == f ensures |x.chains[f]| > 2 {
      assert NodeOk(x, now, None, k);
    }
  }

  lemma LeastFound<K(0, !new), V(0, !new)>(x: Index<K, V>, now: nat, least: int)
    requires Indexed(x, now, None) && least <= INT8_MAX
    requires forall f :: f in x.chains && HasFreq(x.info, f) ==> least <= f
    requires least < INT8_MAX ==> HasFreq(x.info, least)
    ensures IsCappedMin(x.info, if least == INT8_MAX then 1 else least)
  {
    forall k | k in x.info ensures x.info[k].freq >= least {
      assert NodeOk(x, now, None, k);
      assert HasFreq(x.info, x.info[k].freq);
    }
  }

  /** The first node of a list has waited longest among the keys of that frequency, and taking it out
      leaves the rest in order. */
  lemma FirstIsOldest<K(0, !new), V(0, !new)>(x: Index<K, V>, now: nat, f: int)
    requires Indexed(x, now, None) && HasFreq(x.info, f)
    ensures f in x.chains && |x.chains[f]| > 2 && MemberOk(x, None, f, x.chains[f][1])
    ensures forall j :: j in x.info && x.info[j].freq == f ==> x.info[x.chains[f][1].key].since <= x.info[j].since
    ensures Indexed(Removed(x, f, 1), now, Some(x.chains[f][1].key))
  {
    var k :| k in x.info && x.info[k].freq == f;
    assert NodeOk(x, now, None, k) && LaneOk(x, None, f);
    assert MemberOk(x, None, f, x.chains[f][1]);
    forall j | j in x.info && x.info[j].freq == f ensures x.info[x.chains[f][1].key].since <= x.info[j].since {
      assert NodeOk(x, now, None, j);
      var i :| 0 < i < |x.chains[f]| - 1 && x.chains[f][i] == x.nodeMap[j];
    }
    RemovedIndexed(x, now, x.chains[f][1].key, 1);
  }
}
