/** For which limits the cache works: outside their range minFreq_ comes to name an empty list, kickOut
    misses, and the cache outgrows its capacity. */
module LfuLimits {
  import opened Arithmetic
  import opened LfuPolicy
  import opened LfuRuns

  // ----- outcomes of single operations -----

  predicate Over<K>(c: Config<K>, total: int, n: nat) { n > 0 && total / n > c.maxAverage }

  /** The frequency an access leaves a key with. */
  function Shown<K>(c: Config<K>, over: bool, freq: int): int { if over then AgedFreq(c, freq) else freq }

  lemma GetOutcome<K(!new), V(!new)>(c: Config<K>, s: State<K, V>, k: K, t: State<K, V>)
    requires Step(c, s, Get(k), t) && k in s.entries
    ensures t.entries.Keys == s.entries.Keys && t.total == s.total + 1
    ensures var over := Over(c, s.total + 1, |s.entries|);
            && (forall j :: j in s.entries ==>
                  t.entries[j].freq == Shown(c, over, if j == k then s.entries[j].freq + 1 else s.entries[j].freq))
            && (over ==> IsCappedMin(t.entries, t.minFreq))
  {
    var u := Touched(s, k, s.entries[k].value);
    assert u.entries.Keys == s.entries.Keys;
    assert |u.entries.Keys| == |s.entries.Keys|;
    CountOutcome(c, u, t);
  }

  lemma InsertOutcome<K(!new), V(!new)>(c: Config<K>, s: State<K, V>, k: K, v: V, t: State<K, V>)
    requires Insert(c, s, k, v, t) && k !in s.entries
    ensures t.entries.Keys == s.entries.Keys + {k} && t.total == s.total + 1 && t.minFreq <= 1
    ensures var over := Over(c, s.total + 1, |s.entries| + 1);
            && (forall j :: j in t.entries ==>
                  t.entries[j].freq == Shown(c, over, if j == k then 1 else s.entries[j].freq))
            && (over && AtLeast(t.entries, 1) ==> t.minFreq == 1)
  {
    var u :| Counts(c, Inserted(s, k, v), u) && t == CapAtOne(u);
    CountedInsert(c, s, k, v, u);
  }

  lemma CountedInsert<K(!new), V(!new)>(c: Config<K>, s: State<K, V>, k: K, v: V, t: State<K, V>)
    requires Counts(c, Inserted(s, k, v), t) && k !in s.entries
    ensures t.entries.Keys == s.entries.Keys + {k} && t.total == s.total + 1
    ensures var over := Over(c, s.total + 1, |s.entries| + 1);
            && (forall j :: j in t.entries ==>
                  t.entries[j].freq == Shown(c, over, if j == k then 1 else s.entries[j].freq))
            && (over && AtLeast(t.entries, 1) ==> t.minFreq >= 1)
  {
    var i := Inserted(s, k, v);
    assert i.entries.Keys == s.entries.Keys + {k};
    assert |i.entries.Keys| == |s.entries.Keys| + 1;
    CountOutcome(c, i, t);
  }

  lemma CountOutcome<K(!new), V(!new)>(c: Config<K>, s: State<K, V>, t: State<K, V>)
    requires Counts(c, s, t)
    ensures t.entries.Keys == s.entries.Keys && t.total == s.total + 1
    ensures var over := Over(c, s.total + 1, |s.entries|);
            && (forall j :: j in t.entries ==> t.entries[j].freq == Shown(c, over, s.entries[j].freq))
            && (over ==> IsCappedMin(t.entries, t.minFreq))
  {
  }

  /** A full cache without a key of frequency minFreq_ = 1 takes one key too many. */
  lemma Outgrows<K(!new), V(!new)>(c: Config<K>, ops: seq<Op<K, V>>, s: State<K, V>, k: K, v: V)
    returns (t: State<K, V>)
    requires Run(c, ops, s) && c.capacity == |s.entries| > 0 && k !in s.entries
    requires s.minFreq == 1 && AtLeast(s.entries, 2) && c.blank !in s.entries
    ensures Run(c, ops + [Put(k, v)], t) && |t.entries| == c.capacity + 1
  {
    t := NeverStuck(c, ops, s, Put(k, v));
    var u :| MakesRoom(c, s, u) && Insert(c, u, k, v, t);
    assert u == Overlooked(s);
    InsertOutcome(c, u, k, v, t);
    assert |t.entries.Keys| == |s.entries.Keys + {k}| == |s.entries.Keys| + 1;
  }

  // ----- limits of -2 and below: aging raises frequencies -----

  ghost predicate Raised<K(!new), V(!new)>(s: State<K, V>, keys: set<K>) {
    s.entries.Keys == keys && s.total >= 0 && AtLeast(s.entries, 2) && (keys != {} ==> s.minFreq == 1)
  }

  function Range<T>(s: seq<T>, n: nat): set<T>
    requires n <= |s|
  {
    set i | 0 <= i < n :: s[i]
  }

  predicate Distinct<T(==)>(s: seq<T>) { forall i, j :: 0 <= i < j < |s| ==> s[i] != s[j] }

  lemma RangeNext<T>(s: seq<T>, n: nat)
    requires n < |s|
    ensures Range(s, n + 1) == Range(s, n) + {s[n]}
  {
  }

  lemma RangeFresh<T>(s: seq<T>, n: nat)
    requires n < |s| && Distinct(s)
    ensures s[n] !in Range(s, n)
  {
  }

  lemma {:induction false} RangeSize<T>(s: seq<T>, n: nat)
    requires n <= |s| && Distinct(s)
    ensures |Range(s, n)| == n && (n < |s| ==> s[n] !in Range(s, n))
    ensures n > 0 ==> Range(s, n) == Range(s, n - 1) + {s[n - 1]}
  {
    if n < |s| { RangeFresh(s, n); }
    if n > 0 {
      RangeSize(s, n - 1);
      RangeNext(s, n - 1);
    } else {
      assert Range(s, 0) == {};
    }
  }

  lemma {:induction false} FillRaised<K(!new), V(!new)>(c: Config<K>, keys: seq<K>, v: V, n: nat)
    returns (ops: seq<Op<K, V>>, s: State<K, V>)
    requires c.maxAverage <= -2 && n <= |keys| && (c.capacity < 0 || n <= c.capacity) && Distinct(keys)
    ensures Run(c, ops, s) && Raised(s, Range(keys, n))
  {
    if n == 0 {
      ops, s := [], Initial();
      return;
    }
    ops, s := FillRaised(c, keys, v, n - 1);
    RangeSize(keys, n - 1);
    RangeSize(keys, n);
    ops, s := RaiseOne(c, ops, s, Range(keys, n - 1), keys[n - 1], v);
  }

  lemma RaiseOne<K(!new), V(!new)>(c: Config<K>, ops: seq<Op<K, V>>, s: State<K, V>, keys: set<K>, k: K, v: V)
    returns (more: seq<Op<K, V>>, t: State<K, V>)
    requires c.maxAverage <= -2 && Run(c, ops, s) && Raised(s, keys)
    requires k !in keys && |keys| != c.capacity && c.capacity != 0
    ensures Run(c, more, t) && Raised(t, keys + {k})
  {
    more := ops + [Put(k, v)];
    t := NeverStuck(c, ops, s, Put(k, v));
    assert |s.entries.Keys| == |keys|;
    RaisedPut(c, s, k, v, t);
  }

  lemma RaisedPut<K(!new), V(!new)>(c: Config<K>, s: State<K, V>, k: K, v: V, t: State<K, V>)
    requires c.maxAverage <= -2 && Step(c, s, Put(k, v), t)
    requires k !in s.entries && |s.entries| != c.capacity && c.capacity != 0 && Raised(s, s.entries.Keys)
    ensures Raised(t, s.entries.Keys + {k})
  {
    InsertOutcome(c, s, k, v, t);
    assert Half(c.maxAverage) <= -1;
  }

  // ----- other limits outside the range: frequencies climb to INT8_MAX and beyond -----

  /** How far every key is driven before the pass that breaks. */
  function Top<K>(c: Config<K>): int { if c.maxAverage <= 1 then INT8_MAX else c.maxAverage + 1 }

  predicate Climbs<K>(c: Config<K>) { -1 <= c.maxAverage <= 1 || c.maxAverage > 250 }

  /** Every access has been counted once and none aged away. */
  ghost predicate Climbing<K(!new), V(!new)>(c: Config<K>, s: State<K, V>) {
    && s.entries != map[] && s.total == Sum(s.entries) && AtLeast(s.entries, 1)
    && forall k :: k in s.entries ==> s.entries[k].freq <= Top(c)
  }

  lemma SumSame<K(!new), V(!new)>(m: map<K, Entry<V>>, n: map<K, Entry<V>>)
    requires m.Keys == n.Keys && forall k :: k in m ==> n[k].freq == m[k].freq
    ensures Sum(n) == Sum(m)
  {
    SumMonotone(m, n);
    SumMonotone(n, m);
  }

  /** Below its ceiling aging does not run, or has no effect. */
  lemma Calm<K>(c: Config<K>, total: int, n: nat, freq: int)
    requires Climbs(c) && n > 0 && total < Top(c) * n && freq >= 1
    ensures Shown(c, Over(c, total, n), freq) == freq
  {
    if c.maxAverage > 250 { QuotientBelow(total, n, Top(c)); }
  }

  // filling the cache

  ghost predicate Level<K(!new), V(!new)>(s: State<K, V>, keys: set<K>) {
    s.entries.Keys == keys && s.total == |keys| && forall k :: k in keys ==> s.entries[k].freq == 1
  }

  lemma LevelPut<K(!new), V(!new)>(c: Config<K>, s: State<K, V>, k: K, v: V, t: State<K, V>)
    requires Climbs(c) && Step(c, s, Put(k, v), t)
    requires k !in s.entries && |s.entries| != c.capacity && c.capacity != 0 && Level(s, s.entries.Keys)
    ensures Level(t, s.entries.Keys + {k})
  {
    InsertOutcome(c, s, k, v, t);
    var n := |s.entries| + 1;
    ProductMonotone(2, Top(c), n);
    Calm(c, n, n, 1);
  }

  lemma {:induction false} FillLevel<K(!new), V(!new)>(c: Config<K>, keys: seq<K>, v: V, n: nat)
    returns (ops: seq<Op<K, V>>, s: State<K, V>)
    requires Climbs(c) && n <= |keys| && (c.capacity < 0 || n <= c.capacity) && Distinct(keys)
    ensures Run(c, ops, s) && Level(s, Range(keys, n))
  {
    if n == 0 {
      ops, s := [], Initial();
      return;
    }
    ops, s := FillLevel(c, keys, v, n - 1);
    RangeSize(keys, n - 1);
    RangeSize(keys, n);
    ops, s := LevelOne(c, ops, s, Range(keys, n - 1), keys[n - 1], v);
  }

  lemma LevelOne<K(!new), V(!new)>(c: Config<K>, ops: seq<Op<K, V>>, s: State<K, V>, keys: set<K>, k: K, v: V)
    returns (more: seq<Op<K, V>>, t: State<K, V>)
    requires Climbs(c) && Run(c, ops, s) && Level(s, keys)
    requires k !in keys && |keys| != c.capacity && c.capacity != 0
    ensures Run(c, more, t) && Level(t, keys + {k})
  {
    more := ops + [Put(k, v)];
    t := NeverStuck(c, ops, s, Put(k, v));
    assert |s.entries.Keys| == |keys|;
    LevelPut(c, s, k, v, t);
  }

  lemma {:induction false} SumOfOnes<K(!new), V(!new)>(m: map<K, Entry<V>>)
    requires forall k :: k in m ==> m[k].freq == 1
    ensures Sum(m) == |m|
    decreases |m|
  {
    if m != map[] {
      var k :| k in m;
      SumWithout(m, k);
      assert (m - {k}).Keys == m.Keys - {k};
      SumOfOnes(m - {k});
    }
  }

  // climbing

  lemma {:induction false} SumAtMost<K(!new), V(!new)>(m: map<K, Entry<V>>, f: int, n: nat)
    requires n == |m| && forall k :: k in m ==> m[k].freq <= f
    ensures Sum(m) <= f * n && (Sum(m) == f * n ==> AtLeast(m, f))
    decreases n
  {
    if n > 0 {
      var k :| k in m;
      var rest := m - {k};
      SumWithout(m, k);
      WithoutOne(m, k);
      SumAtMost(rest, f, n - 1);
      OneMore(f, n, m[k].freq, Sum(rest));
      assert forall j :: j in m && j != k ==> j in rest;
    }
  }

  /** As long as the total is short of its ceiling, some key is. */
  lemma Room<K(!new), V(!new)>(c: Config<K>, s: State<K, V>) returns (k: K)
    requires Climbing(c, s) && s.total < Top(c) * |s.entries|
    ensures k in s.entries && s.entries[k].freq < Top(c)
  {
    if AtLeast(s.entries, Top(c)) { SumBounds(s.entries, Top(c)); }
    k :| k in s.entries && s.entries[k].freq < Top(c);
  }

  lemma BumpedSum<K(!new), V(!new)>(m: map<K, Entry<V>>, k: K, n: map<K, Entry<V>>)
    requires k in m && n.Keys == m.Keys
    requires forall j :: j in m ==> n[j].freq == if j == k then m[j].freq + 1 else m[j].freq
    ensures Sum(n) == Sum(m) + 1
  {
    SumWithout(m, k);
    SumWithout(n, k);
    SumSame(m - {k}, n - {k});
  }

  lemma ClimbStep<K(!new), V(!new)>(c: Config<K>, s: State<K, V>, k: K, t: State<K, V>)
    requires Climbs(c) && Climbing(c, s) && k in s.entries && s.entries[k].freq < Top(c)
    requires Step(c, s, Get(k), t) && s.total + 1 < Top(c) * |s.entries|
    ensures Climbing(c, t) && t.total == s.total + 1 && t.entries.Keys == s.entries.Keys
  {
    GetOutcome(c, s, k, t);
    var n := |s.entries|;
    var over := Over(c, s.total + 1, n);
    forall freq | freq >= 1 ensures Shown(c, over, freq) == freq { Calm(c, s.total + 1, n, freq); }
    BumpedSum(s.entries, k, t.entries);
  }

  /** The access that takes the last key to its ceiling: aging leaves all keys at INT8_MAX or above, and
      minFreq_ falls back to 1. */
  lemma ClimbEnds<K(!new), V(!new)>(c: Config<K>, s: State<K, V>, k: K, t: State<K, V>)
    requires Climbs(c) && Climbing(c, s) && k in s.entries && s.entries[k].freq < Top(c)
    requires Step(c, s, Get(k), t) && s.total + 1 == Top(c) * |s.entries|
    ensures t.entries.Keys == s.entries.Keys && AtLeast(t.entries, INT8_MAX) && t.minFreq == 1
  {
    AllAtTop(c, s, k);
    GetOutcome(c, s, k, t);
    QuotientBounds(s.total + 1, |s.entries|, Top(c));
    assert AtLeast(t.entries, INT8_MAX);
  }

  lemma AllAtTop<K(!new), V(!new)>(c: Config<K>, s: State<K, V>, k: K)
    requires Climbing(c, s) && k in s.entries && s.entries[k].freq < Top(c)
    requires s.total + 1 == Top(c) * |s.entries|
    ensures forall j :: j in s.entries ==> (if j == k then s.entries[j].freq + 1 else s.entries[j].freq) == Top(c)
  {
    var m := s.entries[k := s.entries[k].(freq := s.entries[k].freq + 1)];
    assert m.Keys == s.entries.Keys && |m.Keys| == |s.entries.Keys|;
    BumpedSum(s.entries, k, m);
    SumAtMost(m, Top(c), |s.entries|);
    forall j | j in s.entries ensures m[j].freq == Top(c) {}
  }

  lemma {:induction false} Climb<K(!new), V(!new)>(c: Config<K>, ops: seq<Op<K, V>>, s: State<K, V>)
    returns (more: seq<Op<K, V>>, t: State<K, V>)
    requires Climbs(c) && Climbing(c, s) && Run(c, ops, s) && s.total < Top(c) * |s.entries|
    ensures Run(c, more, t) && t.entries.Keys == s.entries.Keys && AtLeast(t.entries, INT8_MAX) && t.minFreq == 1
    decreases Top(c) * |s.entries| - s.total
  {
    var k := Room(c, s);
    more := ops + [Get(k)];
    t := NeverStuck(c, ops, s, Get(k));
    if s.total + 1 < Top(c) * |s.entries| {
      ClimbStep(c, s, k, t);
      assert |t.entries.Keys| == |s.entries.Keys|;
      more, t := Climb(c, more, t);
    } else {
      ClimbEnds(c, s, k, t);
    }
  }

  // ----- the range is exact -----

  /** Outside the range some run caches any `n` keys so that kickOut could find none of them. */
  lemma Unevictable<K(!new), V(!new)>(c: Config<K>, keys: seq<K>, v: V, n: nat)
    returns (ops: seq<Op<K, V>>, s: State<K, V>)
    requires !InRange(c) && 0 < n <= |keys| && Distinct(keys) && (c.capacity < 0 || n <= c.capacity)
    ensures Run(c, ops, s) && s.entries.Keys == Range(keys, n) && s.minFreq == 1 && AtLeast(s.entries, 2)
  {
    RangeSize(keys, n);
    if c.maxAverage <= -2 {
      ops, s := FillRaised(c, keys, v, n);
    } else {
      ops, s := FillLevel(c, keys, v, n);
      SumOfOnes(s.entries);
      assert |s.entries.Keys| == n;
      ProductMonotone(2, Top(c), n);
      ops, s := Climb(c, ops, s);
    }
  }

  ghost predicate AlwaysExact<K(!new), V(!new)>(c: Config<K>) {
    forall ops: seq<Op<K, V>>, s: State<K, V> :: Run(c, ops, s) ==> Exact(s)
  }

  /** minFreq_ names the least frequency on every run exactly when the limit is between 2 and 250
      (or nothing can be cached). */
  lemma ExactIff<K(!new), V(!new)>(c: Config<K>, k: K, v: V)
    ensures AlwaysExact<K, V>(c) <==> (c.capacity == 0 || InRange(c))
  {
    if c.capacity == 0 || InRange(c) {
      forall ops: seq<Op<K, V>>, s: State<K, V> | Run(c, ops, s) ensures Exact(s) {
        if c.capacity == 0 { NoCapacityNoEntries(c, ops, s); } else { RunKeeps(c, ops, s); }
      }
    } else {
      var ops, s := Unevictable(c, [k], v, 1);
      assert [k][0] in s.entries;
    }
  }

  ghost predicate AlwaysWithin<K(!new), V(!new)>(c: Config<K>) {
    forall ops: seq<Op<K, V>>, s: State<K, V> :: Run(c, ops, s) ==> |s.entries| <= c.capacity
  }

  /** With keys enough to fill it, a cache keeps to its capacity on every run exactly if that is 0 or
      the limit is between 2 and 250. */
  lemma CapacityHeldIff<K(!new), V(!new)>(c: Config<K>, keys: seq<K>, v: V)
    requires c.capacity >= 0 && |keys| == c.capacity + 1 && Distinct(keys)
    requires forall i :: 0 <= i < c.capacity ==> keys[i] != c.blank
    ensures AlwaysWithin<K, V>(c) <==> c.capacity == 0 || InRange(c)
  {
    if c.capacity == 0 || InRange(c) {
      forall ops: seq<Op<K, V>>, s: State<K, V> | Run(c, ops, s) ensures |s.entries| <= c.capacity {
        if c.capacity == 0 { NoCapacityNoEntries(c, ops, s); } else { RunKeeps(c, ops, s); }
      }
    } else {
      var ops, s := Unevictable(c, keys, v, c.capacity);
      RangeSize(keys, c.capacity);
      assert |s.entries.Keys| == c.capacity;
      var t := Outgrows(c, ops, s, keys[c.capacity], v);
    }
  }

  ghost predicate StraysAfter<K(!new), V(!new)>(c: Config<K>, ops: seq<Op<K, V>>, s: State<K, V>, op: Op<K, V>) {
    Run(c, ops, s) && Strays(c, s, op)
  }

  ghost predicate NeverStrays<K(!new), V(!new)>(c: Config<K>) {
    forall ops: seq<Op<K, V>>, s: State<K, V>, op: Op<K, V> :: !StraysAfter(c, ops, s, op)
  }

  /** If users may cache the sentinels' key, kickOut leaves no node behind on any run exactly if the
      capacity is not positive or the limit is between 2 and 250. */
  lemma NeverStraysIff<K(!new), V(!new)>(c: Config<K>, keys: seq<K>, v: V)
    requires c.capacity > 0 ==> |keys| == c.capacity + 1 && Distinct(keys) && keys[0] == c.blank
    ensures NeverStrays<K, V>(c) <==> c.capacity <= 0 || InRange(c)
  {
    if c.capacity <= 0 || InRange(c) {
      forall ops: seq<Op<K, V>>, s: State<K, V>, op: Op<K, V> ensures !StraysAfter(c, ops, s, op) {
        if InRange(c) && Run(c, ops, s) { NoneStrays(c, ops, s, op); }
      }
    } else {
      var ops, s := Unevictable(c, keys, v, c.capacity);
      RangeSize(keys, c.capacity);
      assert |s.entries.Keys| == c.capacity && keys[0] in s.entries;
      assert StraysAfter(c, ops, s, Put(keys[c.capacity], v));
    }
  }
}
