/** The LFU policy of include/LFU.h with its linked lists forgotten: a finite map from keys to
    records.  `since` is the moment at which a node entered the frequency list it is in now, so
    that "first in its list" becomes "smallest `since`" and no list has to be mentioned. */
module LfuPolicy {
  import opened Arithmetic

  const INT8_MAX := 127

  datatype Entry<V> = Entry(value: V, freq: int, since: nat)

  datatype State<K(!new), V(!new)> = State(entries: map<K, Entry<V>>, minFreq: int, total: int, clock: nat)

  /** The limits of a cache, and the key that its list sentinels, being default-constructed, carry. */
  datatype Config<K> = Config(capacity: int, maxAverage: int, blank: K)

  datatype Op<K, V> = Put(key: K, value: V) | Get(key: K) | Purge

  // ----- the operations -----

  function Initial<K(!new), V(!new)>(): State<K, V> { State(map[], INT8_MAX, 0, 0) }

  /** C++ division by two, truncating toward zero. */
  function Half(n: int): int { if n >= 0 then n / 2 else -((-n) / 2) }

  function AgedFreq<K>(c: Config<K>, freq: int): int {
    if freq - Half(c.maxAverage) < 1 then 1 else freq - Half(c.maxAverage)
  }

  ghost predicate HasFreq<K(!new), V(!new)>(m: map<K, Entry<V>>, f: int) { exists k :: k in m && m[k].freq == f }

  ghost predicate AtLeast<K(!new), V(!new)>(m: map<K, Entry<V>>, f: int) { forall k :: k in m ==> m[k].freq >= f }

  ghost predicate IsLeast<K(!new), V(!new)>(m: map<K, Entry<V>>, f: int) { HasFreq(m, f) && AtLeast(m, f) }

  /** What updateMinFreq computes: the least frequency, except that the scan starts at INT8_MAX and
      a scan that ends there is replaced by 1. */
  ghost predicate IsCappedMin<K(!new), V(!new)>(m: map<K, Entry<V>>, f: int) {
    (f < INT8_MAX && IsLeast(m, f)) || (f == 1 && AtLeast(m, INT8_MAX))
  }

  /** getInternal up to addFreqNum: one more access of `k`, which joins the back of the next list. */
  ghost function Touched<K(!new), V(!new)>(s: State<K, V>, k: K, v: V): State<K, V>
    requires k in s.entries
  {
    var f := s.entries[k].freq;
    var entries := s.entries[k := Entry(v, f + 1, s.clock)];
    State(entries, if f == s.minFreq && !HasFreq(entries, f) then f + 1 else s.minFreq, s.total, s.clock + 1)
  }

  ghost predicate Apart<K, V>(m: map<K, Entry<V>>, j: K, k: K) {
    j in m && k in m && (j != k ==> m[j].since != m[k].since)
  }

  ghost predicate AllApart<K(!new), V(!new)>(m: map<K, Entry<V>>) {
    forall j, k {:trigger Apart(m, j, k)} :: j in m && k in m ==> Apart(m, j, k)
  }

  /** handleOverMaxAverageNum: every record is re-bucketed, in the hash table's unspecified order. */
  ghost predicate Ages<K(!new), V(!new)>(c: Config<K>, s: State<K, V>, t: State<K, V>) {
    && t.entries.Keys == s.entries.Keys
    && (forall k :: k in s.entries ==> t.entries[k].value == s.entries[k].value
                                       && t.entries[k].freq == AgedFreq(c, s.entries[k].freq)
                                       && s.clock <= t.entries[k].since < t.clock)
    && AllApart(t.entries)
    && t.total == s.total
    && t.clock == s.clock + |s.entries|
    && IsCappedMin(t.entries, t.minFreq)
  }

  /** The guard of the aging pass; an empty cache has average 0 and nothing to age. */
  predicate OverAverage<K(!new), V(!new)>(c: Config<K>, s: State<K, V>) {
    |s.entries| > 0 && s.total / |s.entries| > c.maxAverage
  }

  /** addFreqNum. */
  ghost predicate Counts<K(!new), V(!new)>(c: Config<K>, s: State<K, V>, t: State<K, V>) {
    var u := s.(total := s.total + 1);
    if OverAverage(c, u) then Ages(c, u, t) else t == u
  }

  ghost predicate Hit<K(!new), V(!new)>(c: Config<K>, s: State<K, V>, k: K, v: V, t: State<K, V>)
    requires k in s.entries
  {
    Counts(c, Touched(s, k, v), t)
  }

  function Inserted<K(!new), V(!new)>(s: State<K, V>, k: K, v: V): State<K, V> {
    s.(entries := s.entries[k := Entry(v, 1, s.clock)], clock := s.clock + 1)
  }

  function CapAtOne<K(!new), V(!new)>(s: State<K, V>): State<K, V> { if s.minFreq < 1 then s else s.(minFreq := 1) }

  /** putInternal after any eviction. */
  ghost predicate Insert<K(!new), V(!new)>(c: Config<K>, s: State<K, V>, k: K, v: V, t: State<K, V>) {
    exists u :: Counts(c, Inserted(s, k, v), u) && t == CapAtOne(u)
  }

  /** The node kickOut takes: the front of the list for `minFreq`. */
  ghost predicate IsVictim<K(!new), V(!new)>(s: State<K, V>, x: K) {
    && x in s.entries
    && s.entries[x].freq == s.minFreq
    && forall k :: k in s.entries && s.entries[k].freq == s.minFreq ==> s.entries[x].since <= s.entries[k].since
  }

  function Evicted<K(!new), V(!new)>(s: State<K, V>, x: K): State<K, V>
    requires x in s.entries
  {
    s.(entries := s.entries - {x}, total := s.total - s.entries[x].freq)
  }

  /** kickOut when no key has frequency `minFreq`: it takes the list's tail sentinel, whose frequency is
      1, for a node, and finds no such key to erase. */
  function Overlooked<K(!new), V(!new)>(s: State<K, V>): State<K, V> { s.(total := s.total - 1) }

  /** kickOut, as long as it leaves the lists and the key map in agreement.  If it comes to erase the
      sentinel's key and that key is cached, its node stays behind in a list, and there is no outcome. */
  ghost predicate Evicts<K(!new), V(!new)>(c: Config<K>, s: State<K, V>, t: State<K, V>) {
    if HasFreq(s.entries, s.minFreq) then exists x :: IsVictim(s, x) && t == Evicted(s, x)
    else c.blank !in s.entries && t == Overlooked(s)
  }

  /** putInternal up to the new node: a full cache evicts. */
  ghost predicate MakesRoom<K(!new), V(!new)>(c: Config<K>, s: State<K, V>, t: State<K, V>) {
    if |s.entries| == c.capacity then Evicts(c, s, t) else t == s
  }

  ghost predicate Miss<K(!new), V(!new)>(c: Config<K>, s: State<K, V>, k: K, v: V, t: State<K, V>) {
    exists u :: MakesRoom(c, s, u) && Insert(c, u, k, v, t)
  }

  ghost predicate Step<K(!new), V(!new)>(c: Config<K>, s: State<K, V>, op: Op<K, V>, t: State<K, V>) {
    match op
    case Put(k, v) =>
      if c.capacity == 0 then t == s
      else if k in s.entries then Hit(c, s, k, v, t)
      else Miss(c, s, k, v, t)
    case Get(k) =>
      if k in s.entries then Hit(c, s, k, s.entries[k].value, t) else t == s
    case Purge => t == s.(entries := map[])
  }

  /** A put that makes kickOut erase the sentinel's key although it is cached. */
  ghost predicate Strays<K(!new), V(!new)>(c: Config<K>, s: State<K, V>, op: Op<K, V>) {
    && op.Put? && c.capacity != 0 && op.key !in s.entries && |s.entries| == c.capacity
    && !HasFreq(s.entries, s.minFreq) && c.blank in s.entries
  }

  function Front<T>(s: seq<T>): seq<T>
    requires s != []
  {
    s[..|s| - 1]
  }

  function Last<T>(s: seq<T>): T
    requires s != []
  {
    s[|s| - 1]
  }

  /** `s` is reached by performing `ops` in order on a fresh cache. */
  ghost predicate Run<K(!new), V(!new)>(c: Config<K>, ops: seq<Op<K, V>>, s: State<K, V>)
    decreases |ops|
  {
    if ops == [] then s == Initial()
    else exists p :: Run(c, Front(ops), p) && Step(c, p, Last(ops), s)
  }

  // ----- sums of frequencies -----

  ghost function Sum<K(!new), V(!new)>(m: map<K, Entry<V>>): int {
    if m == map[] then 0 else
      var k :| k in m;
      m[k].freq + Sum(m - {k})
  }

  lemma {:induction false} SumWithout<K(!new), V(!new)>(m: map<K, Entry<V>>, x: K)
    requires x in m
    ensures Sum(m) == m[x].freq + Sum(m - {x})
    decreases |m|
  {
    var k :| k in m && Sum(m) == m[k].freq + Sum(m - {k});
    if k != x {
      SumWithout(m - {k}, x);
      SumWithout(m - {x}, k);
      assert m - {k} - {x} == m - {x} - {k};
    }
  }

  lemma SumUpdate<K(!new), V(!new)>(m: map<K, Entry<V>>, x: K, e: Entry<V>)
    ensures Sum(m[x := e]) == Sum(m - {x}) + e.freq
  {
    SumWithout(m[x := e], x);
    assert m[x := e] - {x} == m - {x};
  }

  lemma OneMore(f: int, n: nat, freq: int, rest: int)
    requires n > 0
    ensures freq >= f && rest >= f * (n - 1) ==> freq + rest >= f * n
    ensures freq <= f && rest <= f * (n - 1) ==> freq + rest <= f * n
    ensures freq + rest == f * n && freq <= f && rest <= f * (n - 1) ==> freq == f && rest == f * (n - 1)
  {
    assert f * (n - 1) == f * n - f;
  }

  lemma WithoutOne<K, V>(m: map<K, V>, k: K)
    requires k in m
    ensures |m - {k}| == |m| - 1
  {
    assert (m - {k}).Keys == m.Keys - {k};
  }

  lemma {:induction false} SumOfMany<K(!new), V(!new)>(m: map<K, Entry<V>>, f: int, n: nat)
    requires AtLeast(m, f) && n == |m|
    ensures Sum(m) >= f * n
    decreases n
  {
    if n > 0 {
      var k :| k in m;
      SumWithout(m, k);
      WithoutOne(m, k);
      SumOfMany(m - {k}, f, n - 1);
      OneMore(f, n, m[k].freq, Sum(m - {k}));
    }
  }

  lemma SumBounds<K(!new), V(!new)>(m: map<K, Entry<V>>, f: int)
    requires AtLeast(m, f)
    ensures Sum(m) >= f * |m|
  {
    SumOfMany(m, f, |m|);
  }

  lemma {:induction false} SumMonotone<K(!new), V(!new)>(m: map<K, Entry<V>>, n: map<K, Entry<V>>)
    requires m.Keys == n.Keys && forall k :: k in m ==> n[k].freq <= m[k].freq
    ensures Sum(n) <= Sum(m)
    decreases |m|
  {
    if m != map[] {
      var k :| k in m;
      SumWithout(m, k);
      SumWithout(n, k);
      SumMonotone(m - {k}, n - {k});
    }
  }

  // ----- the invariant -----

  predicate InRange<K>(c: Config<K>) { 2 <= c.maxAverage <= 250 }

  /** The field minFreq_ is what its comment claims. */
  ghost predicate Exact<K(!new), V(!new)>(s: State<K, V>) { s.entries != map[] ==> IsLeast(s.entries, s.minFreq) }

  ghost predicate Stamped<K(!new), V(!new)>(s: State<K, V>) {
    && (forall k :: k in s.entries ==> s.entries[k].since < s.clock)
    && AllApart(s.entries)
  }

  ghost predicate Inv<K(!new), V(!new)>(c: Config<K>, s: State<K, V>) {
    && AtLeast(s.entries, 1)
    && s.minFreq >= 1
    && Sum(s.entries) <= s.total
    && Exact(s)
    && (s.entries != map[] ==> s.minFreq <= c.maxAverage)
    && (c.capacity >= 0 ==> |s.entries| <= c.capacity)
  }

  /** Frequencies start at 1 and no limit takes them lower. */
  ghost predicate Positive<K(!new), V(!new)>(s: State<K, V>) { AtLeast(s.entries, 1) && s.minFreq >= 1 }

  lemma InsertPositive<K(!new), V(!new)>(c: Config<K>, s: State<K, V>, k: K, v: V, t: State<K, V>)
    requires Positive(s) && Insert(c, s, k, v, t)
    ensures Positive(t)
  {
  }

  lemma MissPositive<K(!new), V(!new)>(c: Config<K>, s: State<K, V>, k: K, v: V, t: State<K, V>)
    requires Positive(s) && Miss(c, s, k, v, t)
    ensures Positive(t) && t.minFreq == 1
  {
    var u :| MakesRoom(c, s, u) && Insert(c, u, k, v, t);
    InsertPositive(c, u, k, v, t);
  }

  lemma HitPositive<K(!new), V(!new)>(c: Config<K>, s: State<K, V>, k: K, v: V, t: State<K, V>)
    requires Positive(s) && k in s.entries && Hit(c, s, k, v, t)
    ensures Positive(t)
  {
  }

  /** The key and the frequency of the node that kickOut finds at the front of the list for `minFreq`. */
  ghost predicate FoundAtFront<K(!new), V(!new)>(s: State<K, V>, blank: K, k: K, freq: int) {
    if HasFreq(s.entries, s.minFreq) then IsVictim(s, k) && freq == s.minFreq else k == blank && freq == 1
  }

  lemma FrontEvicts<K(!new), V(!new)>(c: Config<K>, s: State<K, V>, k: K, freq: int)
    requires FoundAtFront(s, c.blank, k, freq) && (HasFreq(s.entries, s.minFreq) || c.blank !in s.entries)
    ensures Evicts(c, s, s.(entries := s.entries - {k}, total := s.total - freq))
  {
    if HasFreq(s.entries, s.minFreq) {
      assert s.(entries := s.entries - {k}, total := s.total - freq) == Evicted(s, k);
    } else {
      assert s.entries - {c.blank} == s.entries;
    }
  }

  /** A cache whose average is within the limit holds some key used at most `maxAverage` times. */
  lemma LeastWithinAverage<K(!new), V(!new)>(c: Config<K>, m: map<K, Entry<V>>, f: int, total: int)
    requires m != map[] && AtLeast(m, f) && Sum(m) <= total && total / |m| <= c.maxAverage
    ensures f <= c.maxAverage
  {
    SumBounds(m, f);
    QuotientBounds(total, |m|, f);
  }

  lemma AgesKeeps<K(!new), V(!new)>(c: Config<K>, s: State<K, V>, t: State<K, V>)
    requires InRange(c) && Ages(c, s, t) && AtLeast(s.entries, 1) && Sum(s.entries) <= s.total
    ensures AtLeast(t.entries, 1) && Sum(t.entries) <= t.total && t.minFreq >= 1
    ensures |t.entries| == |s.entries|
  {
    SumMonotone(s.entries, t.entries);
    assert |t.entries.Keys| == |s.entries.Keys|;
  }

  /** The arithmetic at the centre: a least frequency of at most maxAverage + 1 ages to one that is
      below both the limit and INT8_MAX. */
  lemma AgedLeast<K(!new), V(!new)>(c: Config<K>, s: State<K, V>, t: State<K, V>, f: int)
    requires InRange(c) && Ages(c, s, t) && HasFreq(s.entries, f) && f <= c.maxAverage + 1
    ensures IsLeast(t.entries, t.minFreq) && t.minFreq <= c.maxAverage
  {
    var k :| k in s.entries && s.entries[k].freq == f;
    assert AgedFreq(c, f) < INT8_MAX && AgedFreq(c, f) <= c.maxAverage;
    assert t.entries[k].freq == AgedFreq(c, f);
  }

  lemma TouchedKeeps<K(!new), V(!new)>(c: Config<K>, s: State<K, V>, k: K, v: V)
    requires Inv(c, s) && k in s.entries
    ensures var t := Touched(s, k, v);
            && AtLeast(t.entries, 1) && Sum(t.entries) <= t.total + 1
            && IsLeast(t.entries, t.minFreq) && 1 <= t.minFreq <= c.maxAverage + 1
            && |t.entries| == |s.entries|
  {
    var t := Touched(s, k, v);
    SumWithout(s.entries, k);
    SumUpdate(s.entries, k, t.entries[k]);
    assert t.entries.Keys == s.entries.Keys;
    var f := s.entries[k].freq;
    if f == s.minFreq && !HasFreq(t.entries, f) {
      assert t.entries[k].freq == f + 1;
    } else if f == s.minFreq {
    } else {
      var j :| j in s.entries && s.entries[j].freq == s.minFreq;
      assert t.entries[j].freq == s.minFreq;
    }
  }

  /** A state in which the access just made has been counted but aging has not run. */
  ghost predicate Counted<K(!new), V(!new)>(c: Config<K>, s: State<K, V>) {
    && AtLeast(s.entries, 1)
    && Sum(s.entries) <= s.total
    && s.entries != map[]
    && IsLeast(s.entries, s.minFreq)
    && 1 <= s.minFreq <= c.maxAverage + 1
    && (c.capacity >= 0 ==> |s.entries| <= c.capacity)
  }

  lemma AgingRestores<K(!new), V(!new)>(c: Config<K>, s: State<K, V>, t: State<K, V>)
    requires InRange(c) && Counted(c, s) && Ages(c, s, t)
    ensures Inv(c, t)
  {
    AgesKeeps(c, s, t);
    AgedLeast(c, s, t, s.minFreq);
  }

  lemma WithinAverage<K(!new), V(!new)>(c: Config<K>, s: State<K, V>)
    requires Counted(c, s) && !OverAverage(c, s)
    ensures Inv(c, s)
  {
    LeastWithinAverage(c, s.entries, s.minFreq, s.total);
  }

  lemma HitKeeps<K(!new), V(!new)>(c: Config<K>, s: State<K, V>, k: K, v: V, t: State<K, V>)
    requires InRange(c) && Inv(c, s) && k in s.entries && Hit(c, s, k, v, t)
    ensures Inv(c, t)
  {
    TouchedKeeps(c, s, k, v);
    var u := Touched(s, k, v);
    u := u.(total := u.total + 1);
    if OverAverage(c, u) {
      AgingRestores(c, u, t);
    } else {
      WithinAverage(c, u);
    }
  }

  lemma InsertedKeeps<K(!new), V(!new)>(s: State<K, V>, k: K, v: V)
    requires k !in s.entries && AtLeast(s.entries, 1) && Sum(s.entries) <= s.total
    ensures var i := Inserted(s, k, v);
            && AtLeast(i.entries, 1) && Sum(i.entries) <= i.total + 1
            && |i.entries| == |s.entries| + 1
  {
    var i := Inserted(s, k, v);
    assert Sum(i.entries) == Sum(s.entries) + 1 by {
      SumUpdate(s.entries, k, Entry(v, 1, s.clock));
      assert s.entries - {k} == s.entries;
    }
    assert |i.entries| == |s.entries| + 1 by {
      assert i.entries.Keys == s.entries.Keys + {k};
    }
  }

  lemma OneIsLeast<K(!new), V(!new)>(c: Config<K>, s: State<K, V>, k: K)
    requires InRange(c) && AtLeast(s.entries, 1) && Sum(s.entries) <= s.total && s.minFreq >= 1
    requires k in s.entries && s.entries[k].freq == 1
    requires c.capacity >= 0 ==> |s.entries| <= c.capacity
    ensures Inv(c, CapAtOne(s))
  {
    assert HasFreq(s.entries, 1);
  }

  /** After kickOut only the exactness of minFreq_ is lost, and the insertion that follows restores it. */
  lemma InsertKeeps<K(!new), V(!new)>(c: Config<K>, s: State<K, V>, k: K, v: V, t: State<K, V>)
    requires InRange(c) && k !in s.entries && Insert(c, s, k, v, t)
    requires AtLeast(s.entries, 1) && s.minFreq >= 1 && Sum(s.entries) <= s.total
    requires c.capacity >= 0 ==> |s.entries| < c.capacity
    ensures Inv(c, t)
  {
    var u :| Counts(c, Inserted(s, k, v), u) && t == CapAtOne(u);
    CountedInsertKeeps(c, s, k, v, u);
    OneIsLeast(c, u, k);
  }

  lemma CountedInsertKeeps<K(!new), V(!new)>(c: Config<K>, s: State<K, V>, k: K, v: V, t: State<K, V>)
    requires InRange(c) && k !in s.entries && Counts(c, Inserted(s, k, v), t)
    requires AtLeast(s.entries, 1) && s.minFreq >= 1 && Sum(s.entries) <= s.total
    ensures AtLeast(t.entries, 1) && Sum(t.entries) <= t.total && t.minFreq >= 1
    ensures |t.entries| == |s.entries| + 1 && k in t.entries && t.entries[k].freq == 1
  {
    InsertedKeeps(s, k, v);
    CountsKeeps(c, Inserted(s, k, v), t);
  }

  lemma CountsKeeps<K(!new), V(!new)>(c: Config<K>, s: State<K, V>, t: State<K, V>)
    requires InRange(c) && Counts(c, s, t)
    requires AtLeast(s.entries, 1) && Sum(s.entries) <= s.total + 1 && s.minFreq >= 1
    ensures AtLeast(t.entries, 1) && Sum(t.entries) <= t.total && t.minFreq >= 1
    ensures t.entries.Keys == s.entries.Keys && |t.entries| == |s.entries|
    ensures forall k :: k in s.entries && s.entries[k].freq == 1 ==> t.entries[k].freq == 1
  {
    var w := s.(total := s.total + 1);
    if OverAverage(c, w) { AgesKeeps(c, w, t); }
  }

  lemma EvictedKeeps<K(!new), V(!new)>(s: State<K, V>, x: K)
    requires x in s.entries && Sum(s.entries) <= s.total
    ensures Sum(Evicted(s, x).entries) <= Evicted(s, x).total
    ensures |Evicted(s, x).entries| == |s.entries| - 1
  {
    SumWithout(s.entries, x);
    assert Evicted(s, x).entries.Keys == s.entries.Keys - {x};
  }

  /** In range a full cache has a victim, so there is room for one key after kickOut. */
  lemma RoomKeeps<K(!new), V(!new)>(c: Config<K>, s: State<K, V>, t: State<K, V>)
    requires Inv(c, s) && MakesRoom(c, s, t) && c.capacity != 0
    ensures AtLeast(t.entries, 1) && t.minFreq >= 1 && Sum(t.entries) <= t.total && t.entries.Keys <= s.entries.Keys
    ensures c.capacity >= 0 ==> |t.entries| < c.capacity
  {
    if |s.entries| == c.capacity {
      var x :| IsVictim(s, x) && t == Evicted(s, x);
      EvictedKeeps(s, x);
    }
  }

  lemma StepKeeps<K(!new), V(!new)>(c: Config<K>, s: State<K, V>, op: Op<K, V>, t: State<K, V>)
    requires InRange(c) && Inv(c, s) && Step(c, s, op, t)
    ensures Inv(c, t)
  {
    match op
    case Put(k, v) =>
      if c.capacity != 0 {
        if k in s.entries {
          HitKeeps(c, s, k, v, t);
        } else {
          var u :| MakesRoom(c, s, u) && Insert(c, u, k, v, t);
          RoomKeeps(c, s, u);
          InsertKeeps(c, u, k, v, t);
        }
      }
    case Get(k) => if k in s.entries { HitKeeps(c, s, k, s.entries[k].value, t); }
    case Purge => SumBounds(s.entries, 1);
  }

  /** A key that enters a list now is apart from all that are in lists already. */
  lemma ArrivalStamps<K(!new), V(!new)>(s: State<K, V>, k: K, e: Entry<V>, t: State<K, V>)
    requires Stamped(s) && e.since == s.clock && t.entries == s.entries[k := e] && t.clock == s.clock + 1
    ensures Stamped(t)
  {
    forall i, j | i in t.entries && j in t.entries ensures Apart(t.entries, i, j) {
      if i != k && j != k { assert Apart(s.entries, i, j); }
    }
  }

  lemma InsertStamps<K(!new), V(!new)>(c: Config<K>, s: State<K, V>, k: K, v: V, t: State<K, V>)
    requires Stamped(s) && Insert(c, s, k, v, t)
    ensures Stamped(t)
  {
    ArrivalStamps(s, k, Entry(v, 1, s.clock), Inserted(s, k, v));
  }

  lemma EvictStamps<K(!new), V(!new)>(c: Config<K>, s: State<K, V>, t: State<K, V>)
    requires Stamped(s) && Evicts(c, s, t)
    ensures Stamped(t)
  {
    forall i, j | i in t.entries && j in t.entries ensures Apart(t.entries, i, j) {
      assert Apart(s.entries, i, j);
    }
  }

  lemma HitStamps<K(!new), V(!new)>(c: Config<K>, s: State<K, V>, k: K, v: V, t: State<K, V>)
    requires Stamped(s) && k in s.entries && Hit(c, s, k, v, t)
    ensures Stamped(t)
  {
    ArrivalStamps(s, k, Entry(v, s.entries[k].freq + 1, s.clock), Touched(s, k, v));
  }

  /** Whatever the limits, no two keys ever entered their lists at the same moment. */
  lemma StepStamps<K(!new), V(!new)>(c: Config<K>, s: State<K, V>, op: Op<K, V>, t: State<K, V>)
    requires Stamped(s) && Step(c, s, op, t)
    ensures Stamped(t)
  {
    match op
    case Put(k, v) =>
      if c.capacity != 0 {
        if k in s.entries {
          HitStamps(c, s, k, v, t);
        } else {
          var u :| MakesRoom(c, s, u) && Insert(c, u, k, v, t);
          if |s.entries| == c.capacity { EvictStamps(c, s, u); }
          InsertStamps(c, u, k, v, t);
        }
      }
    case Get(k) => if k in s.entries { HitStamps(c, s, k, s.entries[k].value, t); }
    case Purge =>
  }
}
