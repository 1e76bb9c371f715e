/** What holds of every run of put, get and purge on an LFU cache. */
module LfuRuns {
  import opened LfuPolicy
  import opened Wrappers

  /** The run invariant: it ties minFreq_, the running access total and the aging step together. */
  lemma {:induction false} RunKeeps<K(!new), V(!new)>(c: Config<K>, ops: seq<Op<K, V>>, s: State<K, V>)
    requires InRange(c) && Run(c, ops, s)
    ensures Inv(c, s)
    decreases |ops|
  {
    if ops != [] {
      var p :| Run(c, Front(ops), p) && Step(c, p, Last(ops), s);
      RunKeeps(c, Front(ops), p);
      StepKeeps(c, p, Last(ops), s);
    }
  }

  lemma {:induction false} RunStamps<K(!new), V(!new)>(c: Config<K>, ops: seq<Op<K, V>>, s: State<K, V>)
    requires Run(c, ops, s)
    ensures Stamped(s)
    decreases |ops|
  {
    if ops != [] {
      var p :| Run(c, Front(ops), p) && Step(c, p, Last(ops), s);
      RunStamps(c, Front(ops), p);
      StepStamps(c, p, Last(ops), s);
    }
  }

  lemma {:induction false} NoCapacityNoEntries<K(!new), V(!new)>(c: Config<K>, ops: seq<Op<K, V>>, s: State<K, V>)
    requires c.capacity == 0 && Run(c, ops, s)
    ensures s.entries == map[]
    decreases |ops|
  {
    if ops != [] {
      var p :| Run(c, Front(ops), p) && Step(c, p, Last(ops), s);
      NoCapacityNoEntries(c, Front(ops), p);
    }
  }

  // ----- eviction -----

  /** `x` precedes `k` in the order LFU promises: used less often, or as often and waiting longer. */
  predicate Before<V>(x: Entry<V>, k: Entry<V>) { x.freq < k.freq || (x.freq == k.freq && x.since < k.since) }

  /** kickOut removes the one least frequently used key, the longest-waiting one among equals. */
  lemma VictimIsLeastUsed<K(!new), V(!new)>(c: Config<K>, ops: seq<Op<K, V>>, s: State<K, V>, x: K)
    requires InRange(c) && Run(c, ops, s) && x in s.entries
    ensures IsVictim(s, x) <==> forall k :: k in s.entries && k != x ==> Before(s.entries[x], s.entries[k])
  {
    RunKeeps(c, ops, s);
    RunStamps(c, ops, s);
    assert forall k :: k in s.entries ==> Apart(s.entries, x, k);
    if forall k :: k in s.entries && k != x ==> Before(s.entries[x], s.entries[k]) {
      var m :| m in s.entries && s.entries[m].freq == s.minFreq;
      assert s.entries[x].freq == s.minFreq;
    }
  }

  lemma {:induction false} OldestOfFreq<K(!new), V(!new)>(m: map<K, Entry<V>>, f: int) returns (x: K)
    requires HasFreq(m, f)
    ensures x in m && m[x].freq == f
    ensures forall k :: k in m && m[k].freq == f ==> m[x].since <= m[k].since
    decreases |m|
  {
    x :| x in m && m[x].freq == f;
    var rest := m - {x};
    assert forall k :: k in m && k != x ==> k in rest && rest[k] == m[k];
    if HasFreq(rest, f) {
      assert rest.Keys == m.Keys - {x};
      var y := OldestOfFreq(rest, f);
      if m[y].since < m[x].since { x := y; }
    }
  }

  // ----- no operation is ever stuck -----

  lemma {:induction false} LeastExists<K(!new), V(!new)>(m: map<K, Entry<V>>) returns (f: int)
    requires m != map[]
    ensures IsLeast(m, f)
    decreases |m|
  {
    var x :| x in m;
    f := m[x].freq;
    var rest := m - {x};
    if rest != map[] {
      assert rest.Keys == m.Keys - {x};
      var g := LeastExists(rest);
      var y :| y in rest && rest[y].freq == g;
      if g < f { f := g; }
      assert m[y].freq == g;
    }
    assert forall k :: k in m && k != x ==> k in rest;
  }

  lemma {:induction false} FreshStamps<K(!new)>(keys: set<K>, from: nat) returns (stamp: map<K, nat>)
    ensures stamp.Keys == keys
    ensures forall k :: k in keys ==> from <= stamp[k] < from + |keys|
    ensures forall j, k :: j in keys && k in keys && j != k ==> stamp[j] != stamp[k]
    decreases |keys|
  {
    stamp := map[];
    if keys != {} {
      var x :| x in keys;
      var rest := FreshStamps(keys - {x}, from);
      stamp := rest[x := from + |keys| - 1];
    }
  }

  lemma AgingPossible<K(!new), V(!new)>(c: Config<K>, s: State<K, V>) returns (t: State<K, V>)
    requires s.entries != map[]
    ensures Ages(c, s, t)
  {
    var stamp := FreshStamps(s.entries.Keys, s.clock);
    var entries := map k | k in s.entries :: Entry(s.entries[k].value, AgedFreq(c, s.entries[k].freq), stamp[k]);
    assert entries.Keys == s.entries.Keys;
    assert |s.entries.Keys| == |s.entries|;
    var f := LeastExists(entries);
    t := State(entries, if f < INT8_MAX then f else 1, s.total, s.clock + |s.entries|);
  }

  lemma CountingPossible<K(!new), V(!new)>(c: Config<K>, s: State<K, V>) returns (t: State<K, V>)
    ensures Counts(c, s, t)
  {
    t := s.(total := s.total + 1);
    if OverAverage(c, t) {
      t := AgingPossible(c, t);
    }
  }

  lemma InsertingPossible<K(!new), V(!new)>(c: Config<K>, s: State<K, V>, k: K, v: V) returns (t: State<K, V>)
    ensures Insert(c, s, k, v, t)
  {
    var u := CountingPossible(c, Inserted(s, k, v));
    t := CapAtOne(u);
  }

  lemma EvictingPossible<K(!new), V(!new)>(c: Config<K>, s: State<K, V>) returns (t: State<K, V>)
    requires HasFreq(s.entries, s.minFreq) || c.blank !in s.entries
    ensures Evicts(c, s, t)
  {
    if HasFreq(s.entries, s.minFreq) {
      var x := OldestOfFreq(s.entries, s.minFreq);
      t := Evicted(s, x);
      assert IsVictim(s, x);
    } else {
      t := Overlooked(s);
    }
  }

  /** For all limits, an operation has an outcome unless it strays ... */
  lemma StepPossible<K(!new), V(!new)>(c: Config<K>, s: State<K, V>, op: Op<K, V>) returns (t: State<K, V>)
    requires !Strays(c, s, op)
    ensures Step(c, s, op, t)
  {
    match op {
      case Put(k, v) =>
        if c.capacity == 0 {
          t := s;
        } else if k in s.entries {
          t := CountingPossible(c, Touched(s, k, v));
        } else {
          var u := s;
          if |s.entries| == c.capacity { u := EvictingPossible(c, s); }
          t := InsertingPossible(c, u, k, v);
          assert MakesRoom(c, s, u);
        }
      case Get(k) =>
        if k in s.entries {
          t := CountingPossible(c, Touched(s, k, s.entries[k].value));
        } else {
          t := s;
        }
      case Purge => t := s.(entries := map[]);
    }
  }

  /** ... and only then. */
  lemma OutcomeIff<K(!new), V(!new)>(c: Config<K>, s: State<K, V>, op: Op<K, V>)
    ensures (exists t :: Step(c, s, op, t)) <==> !Strays(c, s, op)
  {
    if !Strays(c, s, op) { var t := StepPossible(c, s, op); }
  }

  lemma NeverStuck<K(!new), V(!new)>(c: Config<K>, ops: seq<Op<K, V>>, s: State<K, V>, op: Op<K, V>)
    returns (t: State<K, V>)
    requires Run(c, ops, s) && !Strays(c, s, op)
    ensures Step(c, s, op, t) && Run(c, ops + [op], t)
  {
    t := StepPossible(c, s, op);
    RunExtends(c, ops, s, op, t);
  }

  /** In range no operation strays, whatever keys are used. */
  lemma NoneStrays<K(!new), V(!new)>(c: Config<K>, ops: seq<Op<K, V>>, s: State<K, V>, op: Op<K, V>)
    requires InRange(c) && Run(c, ops, s)
    ensures !Strays(c, s, op)
  {
    RunKeeps(c, ops, s);
  }

  lemma RunExtends<K(!new), V(!new)>(c: Config<K>, ops: seq<Op<K, V>>, s: State<K, V>, op: Op<K, V>, t: State<K, V>)
    requires Run(c, ops, s) && Step(c, s, op, t)
    ensures Run(c, ops + [op], t)
  {
    assert Front(ops + [op]) == ops;
    assert Last(ops + [op]) == op;
  }

  lemma RunNext<K(!new), V(!new)>(c: Config<K>, ops: seq<Op<K, V>>, i: nat, s: State<K, V>, t: State<K, V>)
    requires i < |ops| && Run(c, ops[..i], s) && Step(c, s, ops[i], t)
    ensures Run(c, ops[..i + 1], t)
  {
    assert ops[..i] + [ops[i]] == ops[..i + 1];
    RunExtends(c, ops[..i], s, ops[i], t);
  }

  // ----- values -----

  /** The value of the last put of `k` that no purge has followed. */
  ghost function LastPut<K(!new), V(!new)>(ops: seq<Op<K, V>>, k: K): Option<V>
    decreases |ops|
  {
    if ops == [] then None else
      match Last(ops)
      case Put(j, v) => if j == k then Some(v) else LastPut(Front(ops), k)
      case Get(_) => LastPut(Front(ops), k)
      case Purge => None
  }

  lemma CountsValues<K(!new), V(!new)>(c: Config<K>, s: State<K, V>, t: State<K, V>)
    requires Counts(c, s, t)
    ensures t.entries.Keys == s.entries.Keys
    ensures forall k :: k in s.entries ==> t.entries[k].value == s.entries[k].value
  {
  }

  lemma InsertValues<K(!new), V(!new)>(c: Config<K>, s: State<K, V>, j: K, v: V, t: State<K, V>)
    requires Insert(c, s, j, v, t)
    ensures t.entries.Keys == s.entries.Keys + {j} && t.entries[j].value == v
    ensures forall k :: k in s.entries && k != j ==> t.entries[k].value == s.entries[k].value
  {
    var u :| Counts(c, Inserted(s, j, v), u) && t == CapAtOne(u);
    CountsValues(c, Inserted(s, j, v), u);
  }

  lemma StepValues<K(!new), V(!new)>(c: Config<K>, s: State<K, V>, op: Op<K, V>, t: State<K, V>, k: K)
    requires Step(c, s, op, t) && k in t.entries && c.capacity != 0
    ensures op.Put? && op.key == k ==> t.entries[k].value == op.value
    ensures !(op.Put? && op.key == k) ==> !op.Purge? && k in s.entries && t.entries[k].value == s.entries[k].value
  {
    match op
    case Put(j, v) =>
      if j in s.entries {
        CountsValues(c, Touched(s, j, v), t);
      } else {
        var u :| MakesRoom(c, s, u) && Insert(c, u, j, v, t);
        InsertValues(c, u, j, v, t);
      }
    case Get(j) => if j in s.entries { CountsValues(c, Touched(s, j, s.entries[j].value), t); }
    case Purge =>
  }

  /** For all limits: whatever is still cached under a key is the value last put there. */
  lemma {:induction false} CachedIsLastPut<K(!new), V(!new)>(c: Config<K>, ops: seq<Op<K, V>>, s: State<K, V>, k: K)
    requires Run(c, ops, s) && k in s.entries
    ensures LastPut(ops, k) == Some(s.entries[k].value)
    decreases |ops|
  {
    if c.capacity == 0 {
      NoCapacityNoEntries(c, ops, s);
    } else if ops != [] {
      var p :| Run(c, Front(ops), p) && Step(c, p, Last(ops), s);
      StepValues(c, p, Last(ops), s, k);
      if k in p.entries { CachedIsLastPut(c, Front(ops), p, k); }
    }
  }
}
