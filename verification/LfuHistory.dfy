/** The LFU policy told from the history of calls alone: how often and how recently each key was used,
    what a put of a cached key amounts to, what aging does to a frequency, and where the access total
    goes.  The theorems say so without the functions by which LfuPolicy defines its steps. */
module LfuHistory {
  import opened LfuPolicy
  import opened LfuRuns

  // ----- a put of a cached key is a get that also stores -----

  function WithValue<K(!new), V(!new)>(s: State<K, V>, k: K, v: V): State<K, V>
    requires k in s.entries
  {
    s.(entries := s.entries[k := s.entries[k].(value := v)])
  }

  /** Two maps that differ in values only. */
  ghost predicate SameUse<K(!new), V(!new)>(m: map<K, Entry<V>>, n: map<K, Entry<V>>) {
    m.Keys == n.Keys && forall k :: k in m ==> m[k].freq == n[k].freq && m[k].since == n[k].since
  }

  lemma SameUseSame<K(!new), V(!new)>(m: map<K, Entry<V>>, n: map<K, Entry<V>>, f: int)
    requires SameUse(m, n)
    ensures HasFreq(m, f) ==> HasFreq(n, f)
    ensures AtLeast(m, f) ==> AtLeast(n, f)
    ensures IsCappedMin(m, f) ==> IsCappedMin(n, f)
    ensures AllApart(m) ==> AllApart(n)
  {
    if HasFreq(m, f) {
      var k :| k in m && m[k].freq == f;
      assert n[k].freq == f;
    }
    if AllApart(m) {
      forall j, k | j in n && k in n ensures Apart(n, j, k) { assert Apart(m, j, k); }
    }
  }

  lemma AgesRevalued<K(!new), V(!new)>(c: Config<K>, s: State<K, V>, t: State<K, V>, k: K, v: V)
    requires Ages(c, s, t) && k in s.entries
    ensures Ages(c, WithValue(s, k, v), WithValue(t, k, v))
  {
    var t' := WithValue(t, k, v);
    assert t'.entries.Keys == t.entries.Keys && WithValue(s, k, v).entries.Keys == s.entries.Keys;
    assert |WithValue(s, k, v).entries.Keys| == |s.entries.Keys|;
    SameUseSame(t.entries, t'.entries, t.minFreq);
  }

  lemma CountsRevalued<K(!new), V(!new)>(c: Config<K>, s: State<K, V>, t: State<K, V>, k: K, v: V)
    requires Counts(c, s, t) && k in s.entries
    ensures k in t.entries && Counts(c, WithValue(s, k, v), WithValue(t, k, v))
  {
    var u := s.(total := s.total + 1);
    assert |WithValue(s, k, v).entries.Keys| == |s.entries.Keys| by {
      assert WithValue(s, k, v).entries.Keys == s.entries.Keys;
    }
    if OverAverage(c, u) { AgesRevalued(c, u, t, k, v); }
  }

  lemma TouchedRevalued<K(!new), V(!new)>(s: State<K, V>, k: K, v: V, w: V)
    requires k in s.entries
    ensures k in Touched(s, k, v).entries && WithValue(Touched(s, k, v), k, w) == Touched(s, k, w)
  {
    var m, n := Touched(s, k, v).entries, Touched(s, k, w).entries;
    assert m[k := m[k].(value := w)] == n;
    SameUseSame(m, n, s.entries[k].freq);
    SameUseSame(n, m, s.entries[k].freq);
  }

  /** A put of a cached key leaves the frequencies, the order, the access total and minFreq_ that a get of
      it leaves, and differs in the value only. */
  lemma PutIsGet<K(!new), V(!new)>(c: Config<K>, s: State<K, V>, k: K, v: V, t: State<K, V>)
    requires k in s.entries && k in t.entries && c.capacity != 0
    ensures Step(c, s, Put(k, v), t) <==>
            t.entries[k].value == v && Step(c, s, Get(k), WithValue(t, k, s.entries[k].value))
  {
    if Step(c, s, Put(k, v), t) { PutGivesGet(c, s, k, v, t); }
    if t.entries[k].value == v && Step(c, s, Get(k), WithValue(t, k, s.entries[k].value)) { GetGivesPut(c, s, k, t); }
  }

  lemma PutGivesGet<K(!new), V(!new)>(c: Config<K>, s: State<K, V>, k: K, v: V, t: State<K, V>)
    requires k in s.entries && k in t.entries && c.capacity != 0 && Step(c, s, Put(k, v), t)
    ensures t.entries[k].value == v && Step(c, s, Get(k), WithValue(t, k, s.entries[k].value))
  {
    var was := s.entries[k].value;
    TouchedRevalued(s, k, v, was);
    CountsRevalued(c, Touched(s, k, v), t, k, was);
    CountsValues(c, Touched(s, k, v), t);
  }

  lemma GetGivesPut<K(!new), V(!new)>(c: Config<K>, s: State<K, V>, k: K, t: State<K, V>)
    requires k in s.entries && k in t.entries && c.capacity != 0
    requires Step(c, s, Get(k), WithValue(t, k, s.entries[k].value))
    ensures Step(c, s, Put(k, t.entries[k].value), t)
  {
    var was, v := s.entries[k].value, t.entries[k].value;
    TouchedRevalued(s, k, was, v);
    CountsRevalued(c, Touched(s, k, was), WithValue(t, k, was), k, v);
    assert WithValue(WithValue(t, k, was), k, v).entries == t.entries;
  }

  // ----- what aging does to a frequency -----

  /** `g` is what half the limit, rounded down, leaves of `f`, but at least 1. */
  predicate AgedTo(limit: nat, f: int, g: int) {
    g >= 1 && (g == 1 <==> 2 * (f - 1) <= limit) && (g > 1 ==> 2 * (f - g) <= limit < 2 * (f - g) + 2)
  }

  /** Aging resets exactly the keys whose excess over 1 is at most half the limit, takes half the limit
      off the others, and puts no key ahead of another. */
  lemma AgesExactly<K(!new), V(!new)>(c: Config<K>, s: State<K, V>, t: State<K, V>, j: K, k: K)
    requires Ages(c, s, t) && c.maxAverage >= 0 && j in s.entries && k in s.entries
    requires s.entries[j].freq >= 1 && s.entries[k].freq >= 1
    ensures AgedTo(c.maxAverage, s.entries[k].freq, t.entries[k].freq)
    ensures t.entries[j].freq > 1 && t.entries[k].freq > 1 ==>
              t.entries[j].freq - t.entries[k].freq == s.entries[j].freq - s.entries[k].freq
    ensures s.entries[j].freq <= s.entries[k].freq ==> t.entries[j].freq <= t.entries[k].freq
  {
  }

  /** A negative limit raises frequencies by half its size. */
  lemma NegativeAges<K(!new), V(!new)>(c: Config<K>, s: State<K, V>, t: State<K, V>, k: K)
    requires Ages(c, s, t) && c.maxAverage < 0 && k in s.entries && s.entries[k].freq >= 1
    ensures var gain := t.entries[k].freq - s.entries[k].freq;
            2 * gain <= -c.maxAverage < 2 * gain + 2
  {
  }

  // ----- the effect of one operation, by what can be seen before and after -----

  predicate Uses<K(==), V>(op: Op<K, V>, k: K) { !op.Purge? && op.key == k }

  /** The operation is an access: it is counted, and may set off aging. */
  predicate Accesses<K(!new), V(!new)>(c: Config<K>, s: State<K, V>, op: Op<K, V>) {
    (op.Put? && c.capacity != 0) || (op.Get? && op.key in s.entries)
  }

  predicate WithinAverage<K(!new), V(!new)>(c: Config<K>, s: State<K, V>) {
    s.entries == map[] || s.total / |s.entries| <= c.maxAverage
  }

  /** The frequency the operation gives a key before any aging. */
  function FreqBefore<K(!new), V(!new)>(s: State<K, V>, op: Op<K, V>, k: K): int {
    if k !in s.entries then 1 else if Uses(op, k) then s.entries[k].freq + 1 else s.entries[k].freq
  }

  lemma CountsOutcome<K(!new), V(!new)>(c: Config<K>, s: State<K, V>, t: State<K, V>)
    requires Counts(c, s, t)
    ensures t.entries.Keys == s.entries.Keys && t.total == s.total + 1
    ensures WithinAverage(c, t) ==> t == s.(total := s.total + 1)
    ensures !WithinAverage(c, t) ==> Ages(c, s.(total := s.total + 1), t)
  {
    assert |t.entries.Keys| == |s.entries.Keys|;
  }

  lemma CountedInsertSeen<K(!new), V(!new)>(c: Config<K>, s: State<K, V>, k: K, v: V, t: State<K, V>)
    requires Counts(c, Inserted(s, k, v), t) && k !in s.entries
    ensures t.entries.Keys == s.entries.Keys + {k} && t.total == s.total + 1
    ensures WithinAverage(c, t) ==> t.entries == s.entries[k := Entry(v, 1, s.clock)] && t.clock == s.clock + 1
    ensures !WithinAverage(c, t) ==> Ages(c, Inserted(s, k, v).(total := s.total + 1), t)
  {
    CountsOutcome(c, Inserted(s, k, v), t);
    assert Inserted(s, k, v).entries.Keys == s.entries.Keys + {k};
  }

  lemma InsertSeen<K(!new), V(!new)>(c: Config<K>, s: State<K, V>, k: K, v: V, t: State<K, V>)
    requires Insert(c, s, k, v, t) && k !in s.entries
    ensures t.entries.Keys == s.entries.Keys + {k} && t.total == s.total + 1
    ensures WithinAverage(c, t) ==> t.entries == s.entries[k := Entry(v, 1, s.clock)] && t.clock == s.clock + 1
    ensures !WithinAverage(c, t) ==>
              exists u :: Ages(c, Inserted(s, k, v).(total := s.total + 1), u) && t.entries == u.entries
  {
    var u :| Counts(c, Inserted(s, k, v), u) && t == CapAtOne(u);
    CountedInsertSeen(c, s, k, v, u);
  }

  /** The miss of StepAccounts. */
  lemma MissAccounts<K(!new), V(!new)>(c: Config<K>, s: State<K, V>, k: K, v: V, t: State<K, V>)
    requires Miss(c, s, k, v, t) && k !in s.entries
    ensures |s.entries| != c.capacity ==> t.total == s.total + 1 && t.entries.Keys == s.entries.Keys + {k}
    ensures |s.entries| == c.capacity && s.entries.Keys <= t.entries.Keys ==> t.total == s.total
    ensures forall x :: x in s.entries && x !in t.entries ==>
              && |s.entries| == c.capacity && t.total == s.total + 1 - s.entries[x].freq
              && t.entries.Keys == s.entries.Keys - {x} + {k}
  {
    var u :| MakesRoom(c, s, u) && Insert(c, u, k, v, t);
    InsertSeen(c, u, k, v, t);
  }

  /** Where the access total goes: every access adds one, an eviction takes the victim's frequency, a
      kickOut that finds nobody takes one, and nothing else changes it; a purge leaves minFreq_ too. */
  lemma StepAccounts<K(!new), V(!new)>(c: Config<K>, s: State<K, V>, op: Op<K, V>, t: State<K, V>)
    requires Step(c, s, op, t)
    ensures op.Purge? ==> t.entries == map[] && t.total == s.total && t.minFreq == s.minFreq
    ensures !op.Purge? && !Accesses(c, s, op) ==> t == s
    ensures Accesses(c, s, op) && (op.key in s.entries || |s.entries| != c.capacity) ==>
              t.total == s.total + 1 && t.entries.Keys == s.entries.Keys + {op.key}
    ensures Accesses(c, s, op) && op.key !in s.entries && |s.entries| == c.capacity ==>
              (s.entries.Keys <= t.entries.Keys ==> t.total == s.total)
    ensures forall x :: x in s.entries && x !in t.entries && !op.Purge? ==>
              && |s.entries| == c.capacity && op.key !in s.entries
              && t.total == s.total + 1 - s.entries[x].freq && t.entries.Keys == s.entries.Keys - {x} + {op.key}
  {
    if op.Put? && c.capacity != 0 && op.key !in s.entries {
      MissAccounts(c, s, op.key, op.value, t);
    } else if Accesses(c, s, op) {
      var v := if op.Put? then op.value else s.entries[op.key].value;
      CountsOutcome(c, Touched(s, op.key, v), t);
      assert t.entries.Keys == s.entries.Keys + {op.key};
    }
  }

  lemma RoomSeen<K(!new), V(!new)>(c: Config<K>, s: State<K, V>, t: State<K, V>)
    requires MakesRoom(c, s, t)
    ensures t.clock == s.clock && forall k :: k in t.entries ==> k in s.entries && t.entries[k] == s.entries[k]
  {
  }

  lemma CalmMiss<K(!new), V(!new)>(c: Config<K>, s: State<K, V>, k: K, v: V, t: State<K, V>)
    requires Miss(c, s, k, v, t) && k !in s.entries && WithinAverage(c, t)
    ensures t.clock == s.clock + 1 && k in t.entries && t.entries[k] == Entry(v, 1, s.clock)
    ensures forall j :: j in t.entries && j != k ==> j in s.entries && t.entries[j] == s.entries[j]
  {
    var u :| MakesRoom(c, s, u) && Insert(c, u, k, v, t);
    RoomSeen(c, s, u);
    InsertSeen(c, u, k, v, t);
  }

  lemma CalmHit<K(!new), V(!new)>(c: Config<K>, s: State<K, V>, k: K, v: V, t: State<K, V>)
    requires k in s.entries && Hit(c, s, k, v, t) && WithinAverage(c, t)
    ensures t.clock == s.clock + 1 && t.entries == s.entries[k := Entry(v, s.entries[k].freq + 1, s.clock)]
  {
    CountsOutcome(c, Touched(s, k, v), t);
  }

  /** Within the average, an access raises the frequency of its key by one, or starts it at 1, moves that
      key behind all others, and leaves the others alone. */
  lemma CalmStep<K(!new), V(!new)>(c: Config<K>, s: State<K, V>, op: Op<K, V>, t: State<K, V>, k: K)
    requires Step(c, s, op, t) && WithinAverage(c, t) && k in t.entries && c.capacity != 0
    ensures k in s.entries || (op.Put? && Uses(op, k))
    ensures t.entries[k].freq == FreqBefore(s, op, k)
    ensures t.entries[k].since == if Uses(op, k) then s.clock else s.entries[k].since
    ensures t.clock >= s.clock && (Uses(op, k) ==> t.clock > s.clock)
  {
    if op.Put? && c.capacity != 0 && op.key !in s.entries {
      CalmMiss(c, s, op.key, op.value, t);
    } else if Accesses(c, s, op) {
      CalmHit(c, s, op.key, if op.Put? then op.value else s.entries[op.key].value, t);
    } else {
      StepAccounts(c, s, op, t);
    }
  }

  lemma AgedMiss<K(!new), V(!new)>(c: Config<K>, s: State<K, V>, op: Op<K, V>, t: State<K, V>, k: K)
    requires op.Put? && Miss(c, s, op.key, op.value, t) && op.key !in s.entries && !WithinAverage(c, t)
    requires AtLeast(s.entries, 1) && k in t.entries && c.maxAverage >= 0
    ensures AgedTo(c.maxAverage, FreqBefore(s, op, k), t.entries[k].freq)
  {
    var u :| MakesRoom(c, s, u) && Insert(c, u, op.key, op.value, t);
    RoomSeen(c, s, u);
    AgedInsert(c, u, op.key, op.value, t, k);
  }

  lemma AgedInsert<K(!new), V(!new)>(c: Config<K>, s: State<K, V>, k: K, v: V, t: State<K, V>, j: K)
    requires Insert(c, s, k, v, t) && k !in s.entries && !WithinAverage(c, t)
    requires AtLeast(s.entries, 1) && j in t.entries && c.maxAverage >= 0
    ensures j == k || j in s.entries
    ensures AgedTo(c.maxAverage, if j == k then 1 else s.entries[j].freq, t.entries[j].freq)
  {
    InsertSeen(c, s, k, v, t);
    var i := Inserted(s, k, v).(total := s.total + 1);
    var w :| Ages(c, i, w) && t.entries == w.entries;
    AgesExactly(c, i, w, j, j);
  }

  lemma AgedHit<K(!new), V(!new)>(c: Config<K>, s: State<K, V>, op: Op<K, V>, v: V, t: State<K, V>, k: K)
    requires !op.Purge? && op.key in s.entries && Hit(c, s, op.key, v, t) && !WithinAverage(c, t)
    requires AtLeast(s.entries, 1) && k in t.entries && c.maxAverage >= 0
    ensures AgedTo(c.maxAverage, FreqBefore(s, op, k), t.entries[k].freq)
  {
    var u := Touched(s, op.key, v);
    CountsOutcome(c, u, t);
    AgesExactly(c, u.(total := u.total + 1), t, k, k);
  }

  /** Beyond it, an access ages what it would otherwise have left. */
  lemma AgedStep<K(!new), V(!new)>(c: Config<K>, s: State<K, V>, op: Op<K, V>, t: State<K, V>, k: K)
    requires Step(c, s, op, t) && !WithinAverage(c, t) && Accesses(c, s, op) && AtLeast(s.entries, 1)
    requires k in t.entries && c.maxAverage >= 0
    ensures AgedTo(c.maxAverage, FreqBefore(s, op, k), t.entries[k].freq)
  {
    if op.key in s.entries {
      AgedHit(c, s, op, if op.Put? then op.value else s.entries[op.key].value, t, k);
    } else {
      AgedMiss(c, s, op, t, k);
    }
  }

  // ----- whole histories -----

  ghost predicate StepAt<K(!new), V(!new)>(c: Config<K>, ops: seq<Op<K, V>>, ss: seq<State<K, V>>, i: nat) {
    i < |ops| && i + 1 < |ss| && Step(c, ss[i], ops[i], ss[i + 1])
  }

  /** The states that a history goes through, and never over the average. */
  ghost predicate CalmTrace<K(!new), V(!new)>(c: Config<K>, ops: seq<Op<K, V>>, ss: seq<State<K, V>>) {
    && |ss| == |ops| + 1 && ss[0] == Initial()
    && (forall i {:trigger StepAt(c, ops, ss, i)} :: 0 <= i < |ops| ==> StepAt(c, ops, ss, i))
    && (forall i :: 0 <= i < |ss| ==> WithinAverage(c, ss[i]))
  }

  /** How often `k` was used since it was last not cached. */
  ghost function UseCount<K(!new), V(!new)>(ops: seq<Op<K, V>>, ss: seq<State<K, V>>, k: K, i: nat): nat
    requires i <= |ops| && |ss| == |ops| + 1
  {
    if i == 0 || k !in ss[i].entries then 0
    else UseCount(ops, ss, k, i - 1) + if Uses(ops[i - 1], k) then 1 else 0
  }

  /** When `k` was last used; -1 for never. */
  ghost function LastUse<K(!new), V(!new)>(ops: seq<Op<K, V>>, k: K, i: nat): int
    requires i <= |ops|
  {
    if i == 0 then -1 else if Uses(ops[i - 1], k) then i - 1 else LastUse(ops, k, i - 1)
  }

  lemma {:induction false} TraceRun<K(!new), V(!new)>(c: Config<K>, ops: seq<Op<K, V>>, ss: seq<State<K, V>>, i: nat)
    requires CalmTrace(c, ops, ss) && i <= |ops|
    ensures Run(c, ops[..i], ss[i])
  {
    if i > 0 {
      TraceRun(c, ops, ss, i - 1);
      assert StepAt(c, ops, ss, i - 1);
      RunNext(c, ops, i - 1, ss[i - 1], ss[i]);
    }
  }

  lemma HasCapacity<K(!new), V(!new)>(c: Config<K>, ops: seq<Op<K, V>>, ss: seq<State<K, V>>, i: nat, k: K)
    requires CalmTrace(c, ops, ss) && i <= |ops| && k in ss[i].entries
    ensures c.capacity != 0
  {
    TraceRun(c, ops, ss, i);
    if c.capacity == 0 { NoCapacityNoEntries(c, ops[..i], ss[i]); }
  }

  /** The frequency of a cached key is the number of its uses since it was last inserted. */
  lemma {:induction false} FreqIsUseCount<K(!new), V(!new)>(c: Config<K>, ops: seq<Op<K, V>>,
                                                            ss: seq<State<K, V>>, k: K, i: nat)
    requires CalmTrace(c, ops, ss) && i <= |ops| && k in ss[i].entries
    ensures ss[i].entries[k].freq == UseCount(ops, ss, k, i)
  {
    HasCapacity(c, ops, ss, i, k);
    if i > 0 {
      assert StepAt(c, ops, ss, i - 1);
      CalmStep(c, ss[i - 1], ops[i - 1], ss[i], k);
      if k in ss[i - 1].entries { FreqIsUseCount(c, ops, ss, k, i - 1); }
    }
  }

  lemma {:induction false} LastUseBefore<K(!new), V(!new)>(ops: seq<Op<K, V>>, k: K, i: nat)
    requires i <= |ops|
    ensures LastUse(ops, k, i) < i
  {
    if i > 0 { LastUseBefore(ops, k, i - 1); }
  }

  /** Of two cached keys the one used longer ago has waited longer. */
  lemma {:induction false} WaitIsRecency<K(!new), V(!new)>(c: Config<K>, ops: seq<Op<K, V>>,
                                                           ss: seq<State<K, V>>, j: K, k: K, i: nat)
    requires CalmTrace(c, ops, ss) && i <= |ops| && j in ss[i].entries && k in ss[i].entries && j != k
    ensures ss[i].entries[j].since < ss[i].entries[k].since <==> LastUse(ops, j, i) < LastUse(ops, k, i)
  {
    HasCapacity(c, ops, ss, i, k);
    if i > 0 {
      assert StepAt(c, ops, ss, i - 1);
      CalmStep(c, ss[i - 1], ops[i - 1], ss[i], j);
      CalmStep(c, ss[i - 1], ops[i - 1], ss[i], k);
      LastUseBefore(ops, j, i - 1);
      LastUseBefore(ops, k, i - 1);
      TraceRun(c, ops, ss, i - 1);
      RunStamps(c, ops[..i - 1], ss[i - 1]);
      if j in ss[i - 1].entries && k in ss[i - 1].entries { WaitIsRecency(c, ops, ss, j, k, i - 1); }
    }
  }

  /** LFU by the history alone: kickOut takes the key with the fewest uses since its insertion, and
      among those the one used longest ago. */
  lemma VictimByHistory<K(!new), V(!new)>(c: Config<K>, ops: seq<Op<K, V>>, ss: seq<State<K, V>>, x: K, i: nat)
    requires InRange(c) && CalmTrace(c, ops, ss) && i <= |ops| && x in ss[i].entries
    ensures IsVictim(ss[i], x) <==>
            forall k :: k in ss[i].entries && k != x ==>
              || UseCount(ops, ss, x, i) < UseCount(ops, ss, k, i)
              || (UseCount(ops, ss, x, i) == UseCount(ops, ss, k, i) && LastUse(ops, x, i) < LastUse(ops, k, i))
  {
    TraceRun(c, ops, ss, i);
    VictimIsLeastUsed(c, ops[..i], ss[i], x);
    FreqIsUseCount(c, ops, ss, x, i);
    forall k | k in ss[i].entries && k != x
      ensures ss[i].entries[k].freq == UseCount(ops, ss, k, i)
      ensures ss[i].entries[x].since < ss[i].entries[k].since <==> LastUse(ops, x, i) < LastUse(ops, k, i)
    {
      FreqIsUseCount(c, ops, ss, k, i);
      WaitIsRecency(c, ops, ss, x, k, i);
    }
  }

  // ----- the access total -----

  lemma HitSum<K(!new), V(!new)>(c: Config<K>, s: State<K, V>, k: K, v: V, t: State<K, V>)
    requires k in s.entries && Hit(c, s, k, v, t) && WithinAverage(c, t)
    ensures Sum(t.entries) == Sum(s.entries) + 1
  {
    CalmHit(c, s, k, v, t);
    SumWithout(s.entries, k);
    SumUpdate(s.entries, k, t.entries[k]);
  }

  lemma RoomSum<K(!new), V(!new)>(c: Config<K>, s: State<K, V>, t: State<K, V>)
    requires Inv(c, s) && c.capacity != 0 && MakesRoom(c, s, t) && s.total == Sum(s.entries)
    ensures t.total == Sum(t.entries)
  {
    if |s.entries| == c.capacity {
      var x :| IsVictim(s, x) && t == Evicted(s, x);
      SumWithout(s.entries, x);
    }
  }

  lemma MissSum<K(!new), V(!new)>(c: Config<K>, s: State<K, V>, k: K, v: V, t: State<K, V>)
    requires Inv(c, s) && c.capacity != 0 && k !in s.entries && Miss(c, s, k, v, t) && WithinAverage(c, t)
    requires s.total == Sum(s.entries)
    ensures t.total == Sum(t.entries)
  {
    var u :| MakesRoom(c, s, u) && Insert(c, u, k, v, t);
    RoomSum(c, s, u);
    RoomSeen(c, s, u);
    InsertSum(c, u, k, v, t);
  }

  lemma InsertSum<K(!new), V(!new)>(c: Config<K>, s: State<K, V>, k: K, v: V, t: State<K, V>)
    requires k !in s.entries && Insert(c, s, k, v, t) && WithinAverage(c, t) && s.total == Sum(s.entries)
    ensures t.total == Sum(t.entries)
  {
    InsertSeen(c, s, k, v, t);
    SumUpdate(s.entries, k, Entry(v, 1, s.clock));
    assert s.entries - {k} == s.entries;
  }

  /** As long as nothing was aged or purged, the access total is the sum of the frequencies. */
  lemma {:induction false} TotalIsSum<K(!new), V(!new)>(c: Config<K>, ops: seq<Op<K, V>>, ss: seq<State<K, V>>, i: nat)
    requires InRange(c) && CalmTrace(c, ops, ss) && i <= |ops| && forall j :: 0 <= j < i ==> !ops[j].Purge?
    ensures ss[i].total == Sum(ss[i].entries)
  {
    if i > 0 {
      TotalIsSum(c, ops, ss, i - 1);
      TraceRun(c, ops, ss, i - 1);
      RunKeeps(c, ops[..i - 1], ss[i - 1]);
      assert StepAt(c, ops, ss, i - 1);
      TotalStep(c, ss[i - 1], ops[i - 1], ss[i]);
    }
  }

  lemma TotalStep<K(!new), V(!new)>(c: Config<K>, s: State<K, V>, op: Op<K, V>, t: State<K, V>)
    requires Inv(c, s) && Step(c, s, op, t) && WithinAverage(c, t) && !op.Purge? && s.total == Sum(s.entries)
    ensures t.total == Sum(t.entries)
  {
    if Accesses(c, s, op) {
      if op.key in s.entries {
        var v := if op.Put? then op.value else s.entries[op.key].value;
        HitSum(c, s, op.key, v, t);
        CountsOutcome(c, Touched(s, op.key, v), t);
      } else {
        MissSum(c, s, op.key, op.value, t);
      }
    } else {
      StepAccounts(c, s, op, t);
    }
  }
}
