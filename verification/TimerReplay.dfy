/** Whole runs of the timer queue: any sequence of passes of the event loop, played on the class from a
    new queue, is a run in the sense of TimerRuns. */
module TimerReplay {
  import opened Timers
  import opened TimerRuns
  import opened TimerQueue
  import opened TimerRepeats

  function AllAdded(p: Pass): seq<Entry> { p.before + p.news + p.later }

  ghost function TimersOf(ps: seq<Pass>): set<Timer> {
    set i, e | 0 <= i < |ps| && e in AllAdded(ps[i]) :: e.timer
  }

  /** The timers that each pass fires. */
  ghost function Dues(c: Clock, start: int, ps: seq<Pass>): seq<seq<Entry>> {
    seq(|ps|, i requires 0 <= i < |ps| => FiredIn(c, After(c, start, ps[..i]), ps[i]))
  }

  /** The lives of the timers after `n` of the passes `ps`, which fire `dues`. */
  ghost function PhasesAfter(ps: seq<Pass>, dues: seq<seq<Entry>>, n: nat): Phases
    requires n <= |ps| == |dues|
  {
    if n == 0 then map[] else PhasesPassed(PhasesAfter(ps, dues, n - 1), ps[n - 1], dues[n - 1])
  }

  /** Pass `i` adds timers that the queue has not seen, at addresses no live timer has.  The address of
      a deleted timer may be used again. */
  ghost predicate AllNew(ps: seq<Pass>, dues: seq<seq<Entry>>, i: nat)
    requires i < |ps| == |dues|
  {
    Newcomers(PhasesAfter(ps, dues, i), AllAdded(ps[i]))
  }

  // ----- a timer once seen is never new again -----

  lemma HandledKeys(phase: Phases, es: seq<Entry>, news: seq<Entry>, t: Timer)
    requires t in phase
    ensures t in PhasesHandled(phase, es, news)
  {
    JoinedAt(PhasesFired(phase, es), news, t);
    SettledAt(PhasesJoined(PhasesFired(phase, es), news), es, t);
  }

  lemma PassedKeys(phase: Phases, p: Pass, due: seq<Entry>, t: Timer)
    requires t in phase || Among(p.before, t)
    ensures t in PhasesPassed(phase, p, due)
  {
    JoinedAt(phase, p.before, t);
    HandledKeys(PhasesJoined(phase, p.before), due, p.news, t);
    JoinedAt(PhasesAtTurn(phase, p, due), p.later, t);
  }

  lemma {:induction false} AfterKeys(ps: seq<Pass>, dues: seq<seq<Entry>>, i: nat, j: nat, t: Timer)
    requires i < j <= |ps| == |dues| && (t in PhasesAfter(ps, dues, i) || Among(ps[i].before, t))
    ensures t in PhasesAfter(ps, dues, j)
    decreases j
  {
    if i < j - 1 { AfterKeys(ps, dues, i, j - 1, t); }
    PassedKeys(PhasesAfter(ps, dues, j - 1), ps[j - 1], dues[j - 1], t);
  }

  /** The timers that a pass may change. */
  ghost function Owned(phase: Phases, p: Pass): set<Timer> { phase.Keys + set d | d in p.before :: d.timer }

  ghost predicate Untouched(owned: set<Timer>, es: seq<Entry>) { forall e :: e in es ==> e.timer !in owned }

  /** What pass `i` may touch belongs to no later pass. */
  lemma LaterApart(ps: seq<Pass>, dues: seq<seq<Entry>>, i: nat, j: nat)
    requires i < j < |ps| == |dues| && AllNew(ps, dues, j)
    ensures Untouched(Owned(PhasesAfter(ps, dues, i), ps[i]), AllAdded(ps[j]))
  {
    forall e | e in AllAdded(ps[j]) ensures e.timer !in PhasesAfter(ps, dues, i) && !Among(ps[i].before, e.timer) {
      var k :| 0 <= k < |AllAdded(ps[j])| && AllAdded(ps[j])[k] == e;
      assert Newcomer(PhasesAfter(ps, dues, j), AllAdded(ps[j])[k].timer);
      if e.timer in PhasesAfter(ps, dues, i) || Among(ps[i].before, e.timer) {
        AfterKeys(ps, dues, i, j, e.timer);
      }
    }
  }

  lemma CurrentParts(p: Pass)
    requires Current(AllAdded(p))
    ensures Current(p.before) && Current(p.news) && Current(p.later)
  {
    var all := AllAdded(p);
    assert forall i :: 0 <= i < |p.before| ==> all[i] == p.before[i];
    assert forall i :: 0 <= i < |p.news| ==> all[|p.before| + i] == p.news[i];
    assert forall i :: 0 <= i < |p.later| ==> all[|p.before| + |p.news| + i] == p.later[i];
  }

  /** What the class asks of a pass is what the theorems on repeaters ask of it. */
  lemma NewcomersAreFresh(queue: TimerQueue, p: Pass)
    requires queue.Valid() && Newcomers(queue.phase, AllAdded(p))
    ensures TimersDiffer(queue.timers) && FreshPass(queue.Abs(), p)
  {
    queue.EntriesDistinct();
    var all := AllAdded(p);
    forall i | 0 <= i < |all| ensures !Among(queue.timers, all[i].timer) {
      assert Newcomer(queue.phase, all[i].timer);
      forall k | 0 <= k < |queue.timers| ensures queue.timers[k].timer != all[i].timer {
        assert queue.timers[k] in queue.timers && queue.EntryOk(queue.timers[k]);
      }
    }
  }

  // ----- the run -----

  /** The entries of a pass to come say what their timers say. */
  ghost predicate Ready(ps: seq<Pass>, j: nat)
    requires j < |ps|
    reads set e | e in AllAdded(ps[j]) :: e.timer`expiration
  {
    Current(AllAdded(ps[j]))
  }

  lemma PrefixNext<T>(s: seq<T>, i: nat)
    requires i < |s|
    ensures s[..i + 1] == s[..i] + [s[i]]
  {
  }

  /** Pass `i`, as far as the queue is concerned. */
  method OneStep(queue: TimerQueue, ps: seq<Pass>, i: nat)
    requires i < |ps| && queue.Valid() && queue.OnRun() && queue.passes == ps[..i]
    requires Newcomers(queue.phase, AllAdded(ps[i])) && Current(AllAdded(ps[i]))
    modifies queue, queue.phase.Keys`expiration, (set e | e in ps[i].before :: e.timer)`expiration
    ensures queue.Valid() && queue.OnRun() && queue.passes == ps[..i + 1]
    ensures queue.phase == PhasesPassed(old(queue.phase), ps[i], FiredIn(queue.elapse, old(queue.Abs()), ps[i]))
    ensures GrownBy(old(queue.phase), AllAdded(ps[i]), queue.phase)
  {
    CurrentParts(ps[i]);
    PrefixNext(ps, i);
    ghost var expired := queue.RunPass(ps[i]);
  }

  /** Pass `i`, and what it leaves to the later ones. */
  method Advance(queue: TimerQueue, ps: seq<Pass>, i: nat)
    requires i < |ps| && queue.Valid() && queue.OnRun() && queue.passes == ps[..i]
    requires Newcomers(queue.phase, AllAdded(ps[i]))
    requires forall j {:trigger Ready(ps, j)} ::
               i < j < |ps| ==> Ready(ps, j) && Untouched(Owned(queue.phase, ps[i]), AllAdded(ps[j]))
    requires Current(AllAdded(ps[i]))
    modifies queue, queue.phase.Keys`expiration, (set e | e in ps[i].before :: e.timer)`expiration
    ensures queue.Valid() && queue.OnRun() && queue.passes == ps[..i + 1]
    ensures queue.phase == PhasesPassed(old(queue.phase), ps[i], FiredIn(queue.elapse, old(queue.Abs()), ps[i]))
    ensures GrownBy(old(queue.phase), AllAdded(ps[i]), queue.phase)
    ensures forall j {:trigger Ready(ps, j)} :: i < j < |ps| ==> Ready(ps, j)
  {
    OneStep(queue, ps, i);
    forall j | i < j < |ps| ensures Ready(ps, j) { assert old(Ready(ps, j)); }
  }

  /** What the lives of the timers have to do with pass `i`. */
  lemma PassFits(ps: seq<Pass>, dues: seq<seq<Entry>>, i: nat)
    requires i < |ps| == |dues|
    requires forall j {:trigger AllNew(ps, dues, j)} :: 0 <= j < |ps| ==> AllNew(ps, dues, j)
    ensures Newcomers(PhasesAfter(ps, dues, i), AllAdded(ps[i]))
    ensures forall j :: i < j < |ps| ==> Untouched(Owned(PhasesAfter(ps, dues, i), ps[i]), AllAdded(ps[j]))
    ensures PhasesPassed(PhasesAfter(ps, dues, i), ps[i], dues[i]) == PhasesAfter(ps, dues, i + 1)
  {
    assert AllNew(ps, dues, i);
    forall j | i < j < |ps| ensures Untouched(Owned(PhasesAfter(ps, dues, i), ps[i]), AllAdded(ps[j])) {
      assert AllNew(ps, dues, j);
      LaterApart(ps, dues, i, j);
    }
  }

  lemma OwnedTimers(phase: Phases, after: Phases, ps: seq<Pass>, i: nat)
    requires i < |ps| && phase.Keys <= TimersOf(ps) && GrownBy(phase, AllAdded(ps[i]), after)
    ensures after.Keys <= TimersOf(ps)
  {
  }

  method Replay(start: int, elapse: Clock, ps: seq<Pass>) returns (queue: TimerQueue)
    requires forall i {:trigger AllNew(ps, Dues(elapse, start, ps), i)} ::
               0 <= i < |ps| ==> AllNew(ps, Dues(elapse, start, ps), i)
    requires forall i {:trigger Ready(ps, i)} :: 0 <= i < |ps| ==> Ready(ps, i)
    modifies TimersOf(ps)`expiration
    ensures fresh(queue) && queue.Valid() && queue.OnRun()
    ensures queue.elapse == elapse && queue.start == start && queue.passes == ps
    ensures queue.phase == PhasesAfter(ps, Dues(elapse, start, ps), |ps|)
  {
    queue := new TimerQueue(start, elapse);
    ghost var dues := Dues(elapse, start, ps);
    var i := 0;
    while i < |ps|
      invariant i <= |ps| && fresh(queue) && queue.Valid() && queue.OnRun()
      invariant queue.elapse == elapse && queue.start == start && queue.passes == ps[..i]
      invariant queue.phase == PhasesAfter(ps, dues, i) && queue.phase.Keys <= TimersOf(ps)
      invariant forall j {:trigger Ready(ps, j)} :: i <= j < |ps| ==> Ready(ps, j)
    {
      ghost var phase := queue.phase;
      PassFits(ps, dues, i);
      assert dues[i] == FiredIn(elapse, queue.Abs(), ps[i]) && Ready(ps, i);
      Advance(queue, ps, i);
      OwnedTimers(phase, queue.phase, ps, i);
      i := i + 1;
    }
    assert ps[..i] == ps;
  }
}
