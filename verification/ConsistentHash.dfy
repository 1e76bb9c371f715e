/** The hash ring of include/ConsistenHash.h. */
module ConsistentHash {
  import opened LogStream
  import opened Ordering

  datatype Result<+T> = Ok(value: T) | NoNodes

  predicate Below(x: nat, y: nat) { x < y }

  predicate AtMost(x: nat, y: nat) { x <= y }

  // ----- what a lookup means, without the sorted vector -----

  /** `r` is the first hash after `h` going round the ring: the least one above `h`, or, if there is
      none, the least of all. */
  ghost predicate IsNext(ring: set<nat>, h: nat, r: nat) {
    && r in ring
    && if h < r then forall x :: x in ring && h < x ==> r <= x
       else forall x :: x in ring ==> r <= x <= h
  }

  /** There is one such hash, so a lookup is determined by the ring and the key alone. */
  lemma NextIsUnique(ring: set<nat>, h: nat, r: nat, t: nat)
    requires IsNext(ring, h, r) && IsNext(ring, h, t)
    ensures r == t
  {
  }

  /** Adding hashes moves a lookup only onto a hash that was added, and only if that hash lies between
      the key and the old answer. */
  lemma AddingMovesOnlyToNew(ring: set<nat>, added: set<nat>, h: nat, before: nat, after: nat)
    requires IsNext(ring, h, before) && IsNext(ring + added, h, after)
    ensures after == before || after in added
    ensures after == before <==> !exists x :: x in added && x != before && IsNext({x, before}, h, x)
  {
    if after != before {
      assert after in added && IsNext({after, before}, h, after);
    }
  }

  /** What the documentation of getNode promises instead: the least hash that is not below `h`. */
  ghost predicate IsCeiling(ring: set<nat>, h: nat, r: nat) {
    && r in ring
    && if h <= r then forall x :: x in ring && h <= x ==> r <= x
       else forall x :: x in ring ==> r <= x < h
  }

  /** The lookup is the documented one exactly if no hash of the ring is the key's, or no other is. */
  lemma DocumentedIff(ring: set<nat>, h: nat, r: nat)
    requires IsNext(ring, h, r)
    ensures IsCeiling(ring, h, r) <==> h !in ring || ring == {h}
  {
    if h in ring && ring != {h} {
      var x :| x in ring && x != h;
      assert r != h;
    }
  }

  /** With hashes 5 and 7 a key of hash 5 goes to 7. */
  lemma DocumentedFails()
    ensures IsNext({5, 7}, 5, 7) && IsCeiling({5, 7}, 5, 5) && !IsCeiling({5, 7}, 5, 7)
  {
  }

  // ----- the code -----

  /** std::upper_bound. */
  method UpperBound(s: seq<nat>, h: nat) returns (k: nat)
    requires Ordered(s, AtMost)
    ensures k <= |s| && (forall i :: 0 <= i < k ==> s[i] <= h) && (forall i :: k <= i < |s| ==> h < s[i])
  {
    var lo, hi := 0, |s|;
    while lo < hi
      invariant lo <= hi <= |s|
      invariant (forall i :: 0 <= i < lo ==> s[i] <= h) && (forall i :: hi <= i < |s| ==> h < s[i])
    {
      var mid := (lo + hi) / 2;
      if s[mid] <= h { lo := mid + 1; } else { hi := mid; }
    }
    k := lo;
  }

  /** std::sort: the same values in ascending order. */
  function Sort(s: seq<nat>): (r: seq<nat>)
    ensures |r| == |s|
  {
    if s == [] then [] else Insert(Below, Sort(s[..|s| - 1]), s[|s| - 1])
  }

  lemma {:induction false} SortSorts(s: seq<nat>)
    ensures Ordered(Sort(s), AtMost) && forall y :: y in Sort(s) <==> y in s
  {
    if s != [] {
      var front, last := s[..|s| - 1], s[|s| - 1];
      SortSorts(front);
      InsertOrdered(Below, AtMost, Sort(front), last);
      assert s == front + [last];
      forall y ensures y in Sort(s) <==> y in s { InsertMember(Below, Sort(front), last, y); }
    }
  }

  /** The label under which replica `i` of a node is hashed. */
  function Label(node: string, i: nat): string { node + "_0" + Decimal(i) }

  /** Different replicas of a node have different labels. */
  lemma LabelsDiffer(node: string, i: nat, j: nat)
    requires i != j
    ensures Label(node, i) != Label(node, j)
  {
    DecimalParses(i);
    DecimalParses(j);
    var n := |node + "_0"|;
    assert Label(node, i)[n..] == Decimal(i) && Label(node, j)[n..] == Decimal(j);
  }

  class ConsistentHash {
    const numReplicas: nat
    const hash: string -> nat
    var circle: map<nat, string>
    var sortedHashes: seq<nat>

    /** The vector is sorted and holds the hashes of the ring. */
    ghost predicate Valid()
      reads this
    {
      Ordered(sortedHashes, AtMost) && forall x :: x in circle <==> x in sortedHashes
    }

    constructor (numReplicas: nat, hash: string -> nat)
      ensures Valid() && circle == map[] && this.numReplicas == numReplicas && this.hash == hash
    {
      this.numReplicas, this.hash, circle, sortedHashes := numReplicas, hash, map[], [];
    }

    /** The hash of replica `i`. */
    function Replica(node: string, i: nat): nat { hash(Label(node, i)) }

    /** The first `n` replicas of a node on the ring. */
    ghost function Replicas(node: string, n: nat): map<nat, string> {
      if n == 0 then map[] else Replicas(node, n - 1)[Replica(node, n - 1) := node]
    }

    /** A node's places on the ring are the hashes of its labels, and they lead to the node. */
    lemma {:induction false} ReplicasAre(node: string, n: nat, h: nat)
      ensures h in Replicas(node, n) <==> exists i: nat :: i < n && hash(Label(node, i)) == h
      ensures h in Replicas(node, n) ==> Replicas(node, n)[h] == node
    {
      if n > 0 {
        ReplicasAre(node, n - 1, h);
        assert hash(Label(node, n - 1)) == Replica(node, n - 1);
      }
    }

    /** If the hash function tells labels apart, they are as many as there are replicas. */
    lemma {:induction false} ReplicasCount(node: string, n: nat)
      requires forall a, b :: hash(a) == hash(b) ==> a == b
      ensures |Replicas(node, n)| == n
    {
      if n > 0 {
        ReplicasCount(node, n - 1);
        var h := Replica(node, n - 1);
        ReplicasAre(node, n - 1, h);
        if i: nat :| i < n - 1 && hash(Label(node, i)) == h { LabelsDiffer(node, i, n - 1); }
        assert Replicas(node, n).Keys == Replicas(node, n - 1).Keys + {h};
      }
    }

    method AddNode(node: string)
      requires Valid()
      modifies this
      ensures Valid() && circle == old(circle) + Replicas(node, numReplicas)
    {
      var i := 0;
      while i < numReplicas
        invariant i <= numReplicas && circle == old(circle) + Replicas(node, i)
        invariant forall x :: x in circle <==> x in sortedHashes
      {
        var h := Replica(node, i);
        assert (old(circle) + Replicas(node, i))[h := node] == old(circle) + Replicas(node, i)[h := node];
        circle := circle[h := node];
        sortedHashes := sortedHashes + [h];
        i := i + 1;
      }
      SortSorts(sortedHashes);
      sortedHashes := Sort(sortedHashes);
    }

    method GetNode(key: string) returns (r: Result<nat>)
      requires Valid()
      ensures r.NoNodes? <==> circle == map[]
      ensures r.Ok? ==> IsNext(circle.Keys, hash(key), r.value)
      ensures r.Ok? ==> forall x :: IsNext(circle.Keys, hash(key), x) ==> x == r.value
    {
      if |circle| == 0 { return NoNodes; }
      assert exists x :: x in circle;
      var k := UpperBound(sortedHashes, hash(key));
      if k == |sortedHashes| { k := 0; }
      r := Ok(sortedHashes[k]);
      forall x | IsNext(circle.Keys, hash(key), x) ensures x == r.value {
        NextIsUnique(circle.Keys, hash(key), x, r.value);
      }
    }

    /** A lookup after addNode gives the hash it gave before or one of the new node's. */
    method LookupAround(key: string, node: string) returns (before: Result<nat>, after: Result<nat>)
      requires Valid()
      modifies this
      ensures Valid() && circle == old(circle) + Replicas(node, numReplicas)
      ensures before.Ok? && after.Ok? ==> after == before || after.value in Replicas(node, numReplicas)
      ensures before.NoNodes? && after.Ok? ==> after.value in Replicas(node, numReplicas)
    {
      before := GetNode(key);
      AddNode(node);
      after := GetNode(key);
      if before.Ok? && after.Ok? {
        assert circle.Keys == old(circle).Keys + Replicas(node, numReplicas).Keys;
        AddingMovesOnlyToNew(old(circle).Keys, Replicas(node, numReplicas).Keys, hash(key), before.value, after.value);
      }
    }
  }
}
