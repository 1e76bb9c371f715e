/** The two halves of the LFU proof joined: any history can be played on the linked structure, and
    what it leaves behind is a run of the policy. */
module LfuReplay {
  import opened LfuPolicy
  import opened LfuRuns
  import opened LfuCache
  import opened Wrappers

  /** In range, kickOut always finds a node in the list that minFreq_ names. */
  lemma FullIsEvictable<K(!new), V(!new)>(c: Config<K>, ops: seq<Op<K, V>>, s: State<K, V>)
    requires InRange(c) && Run(c, ops, s) && s.entries != map[]
    ensures HasFreq(s.entries, s.minFreq)
  {
    RunKeeps(c, ops, s);
  }

  ghost predicate NeverPuts<K(!new), V(!new)>(ops: seq<Op<K, V>>, k: K) {
    forall i :: 0 <= i < |ops| && ops[i].Put? ==> ops[i].key != k
  }

  lemma {:induction false} NeverPutNotCached<K(!new), V(!new)>(ops: seq<Op<K, V>>, k: K)
    requires NeverPuts(ops, k)
    ensures LastPut(ops, k) == None
    decreases |ops|
  {
    if ops != [] { NeverPutNotCached(Front(ops), k); }
  }

  /** The limits are in range, or no user's key is the one that the sentinels carry. */
  ghost predicate Playable<K(!new), V(!new)>(c: Config<K>, ops: seq<Op<K, V>>) {
    c.capacity == 0 || InRange(c) || NeverPuts(ops, c.blank)
  }

  lemma PlayableNeverStrays<K(!new), V(!new)>(c: Config<K>, ops: seq<Op<K, V>>, s: State<K, V>, op: Op<K, V>)
    requires Playable(c, ops) && Run(c, ops, s)
    ensures !Strays(c, s, op)
  {
    if c.capacity != 0 {
      if InRange(c) {
        NoneStrays(c, ops, s, op);
      } else if c.blank in s.entries {
        CachedIsLastPut(c, ops, s, c.blank);
        NeverPutNotCached(ops, c.blank);
      }
    }
  }

  /** Operation `i`, performed in state `s`: a get hits exactly if its key is cached, and then returns
      the value last put under it. */
  ghost predicate Answered<K(!new), V(!new)>(ops: seq<Op<K, V>>, i: nat, s: State<K, V>, r: Option<V>)
    requires i < |ops|
  {
    ops[i].Get? ==>
      if ops[i].key in s.entries then r.Some? && r == LastPut(ops[..i], ops[i].key) else r.None?
  }

  method Perform<K(==, 0, !new), V(0, !new)>(cache: RLfuCache<K, V>, ops: seq<Op<K, V>>, i: nat)
    returns (r: Option<V>)
    requires cache.Valid() && cache.Anchored() && i < |ops| && !Strays(cache.Limits(), cache.Abs(), ops[i])
    requires Run(cache.Limits(), ops[..i], cache.Abs())
    modifies cache, cache.nodes, cache.buckets
    ensures cache.Valid() && cache.Anchored() && Run(cache.Limits(), ops[..i + 1], cache.Abs())
    ensures Answered(ops, i, old(cache.Abs()), r)
    ensures cache.GrownSince(old(cache.nodes), old(cache.buckets))
  {
    r := None;
    match ops[i] {
      case Put(k, v) => cache.Put(k, v);
      case Get(k) =>
        if k in cache.nodeMap { CachedIsLastPut(cache.Limits(), ops[..i], cache.Abs(), k); }
        r := cache.Get(k);
      case Purge => cache.Purge();
    }
    RunNext(cache.Limits(), ops, i, old(cache.Abs()), cache.Abs());
  }

  /** The states of a run of the policy, one per operation performed, and the right answers. */
  ghost predicate Traced<K(!new), V(!new)>(c: Config<K>, ops: seq<Op<K, V>>, n: nat,
                                           states: seq<State<K, V>>, results: seq<Option<V>>) {
    && n <= |ops| && |results| == n && |states| == n + 1
    && (forall i :: 0 <= i <= n ==> Run(c, ops[..i], states[i]))
    && (forall i :: 0 <= i < n ==> Answered(ops, i, states[i], results[i]))
  }

  lemma TraceGrows<K(!new), V(!new)>(c: Config<K>, ops: seq<Op<K, V>>, n: nat, states: seq<State<K, V>>,
                                     results: seq<Option<V>>, t: State<K, V>, r: Option<V>)
    requires Traced(c, ops, n, states, results) && n < |ops|
    requires Run(c, ops[..n + 1], t) && Answered(ops, n, states[n], r)
    ensures Traced(c, ops, n + 1, states + [t], results + [r])
  {
    var ss, rs := states + [t], results + [r];
    forall i | 0 <= i <= n + 1 ensures Run(c, ops[..i], ss[i]) { if i <= n { assert ss[i] == states[i]; } }
    forall i | 0 <= i < n + 1 ensures Answered(ops, i, ss[i], rs[i]) {
      if i < n { assert ss[i] == states[i] && rs[i] == results[i]; }
    }
  }

  /** Any history plays on the linked structure up to the first operation that strays, which no history
      contains that is in range or never puts the sentinels' key. */
  method Replay<K(==, 0, !new), V(0, !new)>(capacity: int, maxAverage: int, blank: K, ops: seq<Op<K, V>>)
    returns (cache: RLfuCache<K, V>, results: seq<Option<V>>, ghost states: seq<State<K, V>>)
    ensures cache.Valid() && cache.Anchored() && cache.Limits() == Config(capacity, maxAverage, blank)
    ensures Traced(cache.Limits(), ops, |results|, states, results) && states[|results|] == cache.Abs()
    ensures |results| < |ops| ==> Strays(cache.Limits(), cache.Abs(), ops[|results|])
    ensures Playable(Config(capacity, maxAverage, blank), ops) ==> |results| == |ops|
  {
    cache := new RLfuCache(capacity, maxAverage, blank);
    results, states := [], [cache.Abs()];
    var i := 0;
    while i < |ops| && !(ops[i].Put? && cache.WouldStray(ops[i].key))
      invariant i == |results| && Traced(cache.Limits(), ops, i, states, results) && states[i] == cache.Abs()
      invariant fresh(cache) && fresh(cache.nodes) && fresh(cache.buckets)
      invariant cache.Valid() && cache.Anchored() && cache.Limits() == Config(capacity, maxAverage, blank)
    {
      var r := Perform(cache, ops, i);
      TraceGrows(cache.Limits(), ops, i, states, results, cache.Abs(), r);
      results, states := results + [r], states + [cache.Abs()];
      i := i + 1;
    }
    if i < |ops| && Playable(cache.Limits(), ops) {
      assert Run(cache.Limits(), ops[..i], cache.Abs());
      PlayableNeverStrays(cache.Limits(), ops[..i], cache.Abs(), ops[i]);
    }
  }
}
