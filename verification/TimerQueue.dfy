/** TimerQueue of src/TimerQueue.cc: an ordered set of timers beside one kernel alarm, each method
    shown to be the corresponding function of TimerRuns. */
module TimerQueue {
  import opened Ordering
  import opened Timers
  import opened TimerRuns
  import opened Wrappers

  /** Where the owner of a Timer object is in its life. */
  datatype Phase = Queued | Firing | Deleted

  type Phases = map<Timer, Phase>

  // ----- lives of timers -----

  /** A timer the queue has not seen, whose address no live timer has. */
  ghost predicate Newcomer(phase: Phases, t: Timer) {
    t !in phase && forall u :: u in phase && phase[u] != Deleted ==> u.address != t.address
  }

  /** Timers that code outside the queue has created: different objects at different addresses. */
  ghost predicate Newcomers(phase: Phases, es: seq<Entry>) {
    && (forall i :: 0 <= i < |es| ==> Newcomer(phase, es[i].timer))
    && (forall i, j :: 0 <= i < j < |es| ==>
          es[i].timer != es[j].timer && es[i].timer.address != es[j].timer.address)
  }

  ghost function PhasesFired(phase: Phases, es: seq<Entry>): Phases {
    map t | t in phase :: if Among(es, t) then Firing else phase[t]
  }

  ghost function PhasesJoined(phase: Phases, es: seq<Entry>): Phases {
    if es == [] then phase else PhasesJoined(phase, es[..|es| - 1])[es[|es| - 1].timer := Queued]
  }

  ghost function PhasesSettled(phase: Phases, es: seq<Entry>): Phases {
    if es == [] then phase
    else
      var t := es[|es| - 1].timer;
      PhasesSettled(phase, es[..|es| - 1])[t := if t.repeat then Queued else Deleted]
  }

  ghost function PhasesHandled(phase: Phases, es: seq<Entry>, news: seq<Entry>): Phases {
    if es == [] then phase else PhasesSettled(PhasesJoined(PhasesFired(phase, es), news), es)
  }

  /** The lives of the timers after the timer handler's turn in a pass that fires `due` ... */
  ghost function PhasesAtTurn(phase: Phases, p: Pass, due: seq<Entry>): Phases {
    PhasesHandled(PhasesJoined(phase, p.before), due, p.news)
  }

  /** ... and after the pass. */
  ghost function PhasesPassed(phase: Phases, p: Pass, due: seq<Entry>): Phases {
    PhasesJoined(PhasesAtTurn(phase, p, due), p.later)
  }

  lemma {:induction false} JoinedAt(phase: Phases, es: seq<Entry>, t: Timer)
    ensures t in PhasesJoined(phase, es) <==> t in phase || Among(es, t)
    ensures t in PhasesJoined(phase, es) ==> PhasesJoined(phase, es)[t] == if Among(es, t) then Queued else phase[t]
  {
    if es != [] {
      var front := es[..|es| - 1];
      JoinedAt(phase, front, t);
      assert Among(es, t) <==> Among(front, t) || es[|es| - 1].timer == t;
    }
  }

  lemma {:induction false} SettledAt(phase: Phases, es: seq<Entry>, t: Timer)
    ensures t in PhasesSettled(phase, es) <==> t in phase || Among(es, t)
    ensures t in PhasesSettled(phase, es) ==>
              PhasesSettled(phase, es)[t] == if !Among(es, t) then phase[t] else if t.repeat then Queued else Deleted
  {
    if es != [] {
      var front := es[..|es| - 1];
      SettledAt(phase, front, t);
      assert Among(es, t) <==> Among(front, t) || es[|es| - 1].timer == t;
    }
  }

  /** What one handler call does to every timer: a fired repeater is queued again, a fired one-shot
      is deleted, a timer added by a callback is queued, and any other timer is where it was. */
  lemma HandlerFate(phase: Phases, es: seq<Entry>, news: seq<Entry>, t: Timer)
    requires es != [] && forall i :: 0 <= i < |es| ==> es[i].timer in phase
    ensures t in PhasesHandled(phase, es, news) <==> t in phase || Among(news, t)
    ensures t in PhasesHandled(phase, es, news) ==>
              PhasesHandled(phase, es, news)[t] == if Among(es, t) then (if t.repeat then Queued else Deleted)
                                                   else if Among(news, t) then Queued
                                                   else phase[t]
  {
    JoinedAt(PhasesFired(phase, es), news, t);
    SettledAt(PhasesJoined(PhasesFired(phase, es), news), es, t);
  }

  /** No timer is alive after that was neither alive before nor added. */
  ghost predicate GrownBy(before: Phases, es: seq<Entry>, after: Phases) {
    forall t :: t in after ==>
      (t in before && (after[t] != Deleted ==> before[t] != Deleted)) || Among(es, t)
  }

  lemma HandledGrows(phase: Phases, es: seq<Entry>, news: seq<Entry>)
    requires forall i :: 0 <= i < |es| ==> es[i].timer in phase && phase[es[i].timer] != Deleted
    ensures GrownBy(phase, news, PhasesHandled(phase, es, news))
  {
    if es != [] {
      forall t | t in PhasesHandled(phase, es, news)
        ensures (t in phase && (PhasesHandled(phase, es, news)[t] != Deleted ==> phase[t] != Deleted)) || Among(news, t)
      {
        HandlerFate(phase, es, news, t);
      }
    }
  }

  lemma JoinedGrows(phase: Phases, es: seq<Entry>)
    ensures GrownBy(phase, es, PhasesJoined(phase, es))
  {
    forall t | t in PhasesJoined(phase, es)
      ensures (t in phase && (PhasesJoined(phase, es)[t] != Deleted ==> phase[t] != Deleted)) || Among(es, t)
    {
      JoinedAt(phase, es, t);
    }
  }

  lemma NewcomersSplit(phase: Phases, es: seq<Entry>, fs: seq<Entry>)
    requires Newcomers(phase, es + fs)
    ensures Newcomers(phase, es) && Newcomers(phase, fs)
  {
    assert forall i :: 0 <= i < |es| ==> (es + fs)[i] == es[i];
    forall i | 0 <= i < |fs| ensures Newcomer(phase, fs[i].timer) { assert (es + fs)[|es| + i] == fs[i]; }
    forall i, j | 0 <= i < j < |fs| ensures fs[i].timer != fs[j].timer && fs[i].timer.address != fs[j].timer.address {
      assert (es + fs)[|es| + i] == fs[i] && (es + fs)[|es| + j] == fs[j];
    }
  }

  lemma NewcomersStay(before: Phases, es: seq<Entry>, fs: seq<Entry>, after: Phases)
    requires Newcomers(before, es + fs) && GrownBy(before, es, after)
    ensures Newcomers(after, fs)
  {
    NewcomersSplit(before, es, fs);
    forall i | 0 <= i < |fs| ensures Newcomer(after, fs[i].timer) {
      assert Newcomer(before, fs[i].timer) && (es + fs)[|es| + i] == fs[i];
      forall t | t in after && (Among(es, t) || after[t] != Deleted)
        ensures t != fs[i].timer && t.address != fs[i].timer.address
      {
        if j :| 0 <= j < |es| && es[j].timer == t { assert (es + fs)[j] == es[j]; }
      }
    }
  }

  lemma NextNewcomer(phase: Phases, es: seq<Entry>, i: nat)
    requires i < |es| && Newcomers(phase, es[i..])
    ensures Newcomer(phase, es[i].timer) && Newcomers(phase[es[i].timer := Queued], es[i + 1..])
  {
    var after := phase[es[i].timer := Queued];
    assert es[i..][0] == es[i] && [es[i]][0].timer == es[i].timer;
    assert es[i..] == [es[i]] + es[i + 1..];
    NewcomersStay(phase, [es[i]], es[i + 1..], after);
  }

  lemma FiredNewcomers(phase: Phases, es: seq<Entry>, news: seq<Entry>)
    requires Newcomers(phase, news)
    requires forall i :: 0 <= i < |es| ==> es[i].timer in phase && phase[es[i].timer] != Deleted
    ensures Newcomers(PhasesFired(phase, es), news)
  {
    assert [] + news == news;
    NewcomersStay(phase, [], news, PhasesFired(phase, es));
  }

  lemma LaterUntouched(phase: Phases, p: Pass, owned: set<Timer>)
    requires Newcomers(phase, p.before + p.news + p.later)
    requires owned == phase.Keys + set e | e in p.before :: e.timer
    ensures forall i :: 0 <= i < |p.later| ==> p.later[i].timer !in owned
  {
    var all := p.before + p.news + p.later;
    forall i | 0 <= i < |p.later| ensures p.later[i].timer !in owned {
      var k := |p.before + p.news| + i;
      assert all[k] == p.later[i] && Newcomer(phase, all[k].timer);
      forall e | e in p.before ensures e.timer != p.later[i].timer {
        var j :| 0 <= j < |p.before| && p.before[j] == e;
        assert all[j] == e;
      }
    }
  }

  lemma GrowsTogether(a: Phases, es: seq<Entry>, b: Phases, fs: seq<Entry>, c: Phases)
    requires GrownBy(a, es, b) && GrownBy(b, fs, c)
    ensures GrownBy(a, es + fs, c)
  {
    forall t | t in c && !(t in a && (c[t] != Deleted ==> a[t] != Deleted)) ensures Among(es + fs, t) {
      if i :| 0 <= i < |fs| && fs[i].timer == t {
        assert (es + fs)[|es| + i] == fs[i];
      } else {
        var i :| 0 <= i < |es| && es[i].timer == t;
        assert (es + fs)[i] == es[i];
      }
    }
  }

  /** The entries say what their timers say. */
  ghost predicate Current(es: seq<Entry>)
    reads set e | e in es :: e.timer`expiration
  {
    forall i :: 0 <= i < |es| ==> es[i].timer.expiration == es[i].when
  }

  class TimerQueue {
    const elapse: Clock
    var timers: seq<Entry>
    var alarm: Option<int>
    var clock: int
    var readings: nat
    ghost var readAt: int
    ghost var armedAt: int
    ghost var phase: Phases         // every timer ever added, and where it is
    ghost const start: int
    ghost var passes: seq<Pass>     // the passes of the event loop so far

    // ----- invariants -----

    ghost predicate EntryOk(e: Entry)
      reads this`phase, phase.Keys`expiration
    {
      e.timer in phase && e.timer.expiration == e.when && phase[e.timer] == Queued
    }

    ghost predicate TimerOk(t: Timer)
      reads this`timers, this`phase, phase.Keys`expiration
    {
      t in phase && (phase[t] == Queued ==> Entry(t.expiration, t) in timers)
    }

    /** Live timers have different addresses. */
    ghost predicate Distinct(t: Timer, u: Timer)
      reads this`phase
    {
      t in phase && u in phase && (t != u && phase[t] != Deleted && phase[u] != Deleted ==> t.address != u.address)
    }

    /** Every key is its timer's expiration, and the set holds exactly the queued timers. */
    ghost predicate Valid()
      reads this`timers, this`phase, phase.Keys`expiration
    {
      && Sorted(timers)
      && (forall e {:trigger EntryOk(e)} :: e in timers ==> EntryOk(e))
      && (forall t {:trigger TimerOk(t)} :: t in phase ==> TimerOk(t))
      && (forall t, u {:trigger Distinct(t, u)} :: t in phase && u in phase ==> Distinct(t, u))
    }

    ghost function Abs(): Queue
      reads this`timers, this`alarm, this`clock, this`readings, this`readAt, this`armedAt
    {
      Queue(timers, alarm, clock, readings, readAt, armedAt)
    }

    /** The queue is what its passes have made of a new one, so TimerRuns.AlwaysArmedIff speaks of it. */
    ghost predicate OnRun()
      reads this`timers, this`alarm, this`clock, this`readings, this`readAt, this`armedAt, this`passes
    {
      Abs() == After(elapse, start, passes)
    }

    constructor (clock: int, elapse: Clock)
      ensures Valid() && OnRun() && phase == map[] && passes == []
      ensures this.elapse == elapse && start == clock
    {
      this.elapse, start := elapse, clock;
      this.clock, readings, timers, alarm, phase, passes := clock, 0, [], None, map[], [];
      readAt, armedAt := clock, clock;
    }

    /** A reading of the clock. */
    method Now() returns (now: int)
      modifies this`clock, this`readings
      ensures Abs() == Read(elapse, old(Abs())) && now == clock
    {
      clock, readings := clock + elapse(readings), readings + 1;
      now := clock;
    }

    // ----- operations -----

    /** resetTimerfd. */
    method ResetTimerfd(expiration: int)
      modifies this`alarm, this`clock, this`readings, this`readAt, this`armedAt
      ensures Abs() == Rearmed(elapse, old(Abs()), expiration)
      ensures timers != [] && timers[0].when == expiration ==> Armed(Abs())
    {
      var now := Now();
      var delay := expiration - now;
      if delay < MIN_DELAY { delay := MIN_DELAY; }
      var moment := Now();
      alarm := Some(moment + delay);
      readAt, armedAt := now, moment;
    }

    /** insert. */
    method InsertTimer(timer: Timer) returns (earliestChanged: bool)
      requires Valid() && timer in phase && phase[timer] == Firing
      modifies this`timers, this`phase
      ensures Valid() && phase == old(phase)[timer := Queued]
      ensures timers == InsertEntry(old(timers), Entry(timer.expiration, timer))
      ensures earliestChanged <==> old(timers) == [] || timer.expiration < old(timers)[0].when
    {
      var when := timer.expiration;
      earliestChanged := timers == [] || when < timers[0].when;
      ghost var e := Entry(when, timer);
      forall x | x in timers ensures x.timer.address != timer.address {
        assert EntryOk(x) && Distinct(x.timer, timer);
      }
      InsertEntrySorted(timers, e);
      timers := InsertEntry(timers, Entry(when, timer));
      phase := phase[timer := Queued];
      forall x | x in timers ensures EntryOk(x) { if x != e { assert old(EntryOk(x)); } }
      forall t | t in phase ensures TimerOk(t) { if t != timer { assert old(TimerOk(t)); } }
      forall t, u | t in phase && u in phase ensures Distinct(t, u) { assert old(Distinct(t, u)); }
    }

    ghost method Adopt(timer: Timer)
      requires Valid() && Newcomer(phase, timer)
      modifies this`phase
      ensures Valid() && phase == old(phase)[timer := Firing]
    {
      phase := phase[timer := Firing];
      forall x | x in timers ensures EntryOk(x) { assert old(EntryOk(x)); }
      forall t | t in phase ensures TimerOk(t) { if t != timer { assert old(TimerOk(t)); } }
      forall t, u | t in phase && u in phase ensures Distinct(t, u) {
        if t != timer && u != timer { assert old(Distinct(t, u)); }
      }
    }

    /** addTimerInLoop. */
    method AddTimerInLoop(timer: Timer)
      requires Valid() && Newcomer(phase, timer)
      modifies this`timers, this`phase, this`alarm, this`clock, this`readings, this`readAt, this`armedAt
      ensures Valid() && phase == old(phase)[timer := Queued]
      ensures Abs() == Added(elapse, old(Abs()), Entry(timer.expiration, timer))
      ensures Armed(old(Abs())) ==> Armed(Abs())
    {
      if Armed(Abs()) { AddedArmed(elapse, Abs(), Entry(timer.expiration, timer)); }
      Adopt(timer);
      var earliestChanged := InsertTimer(timer);
      if earliestChanged { ResetTimerfd(timer.expiration); }
    }

    /** What handlers and callbacks do to the queue: between them they add timers. */
    method AddAll(es: seq<Entry>)
      requires Valid() && Newcomers(phase, es) && Current(es)
      modifies this`timers, this`phase, this`alarm, this`clock, this`readings, this`readAt, this`armedAt
      ensures Valid() && phase == PhasesJoined(old(phase), es)
      ensures Abs() == AddedAll(elapse, old(Abs()), es)
    {
      var i := 0;
      while i < |es|
        invariant i <= |es| && Valid() && Newcomers(phase, es[i..])
        invariant phase == PhasesJoined(old(phase), es[..i])
        invariant Abs() == AddedAll(elapse, old(Abs()), es[..i])
      {
        NextNewcomer(phase, es, i);
        AddTimerInLoop(es[i].timer);
        assert es[..i + 1][..i] == es[..i];
        i := i + 1;
      }
      assert es[..i] == es;
    }

    // ----- the handler -----

    /** The timers of `es` are different, ours, and being fired. */
    ghost predicate FiringAll(es: seq<Entry>)
      reads this`phase
    {
      TimersDiffer(es) && forall i :: 0 <= i < |es| ==> es[i].timer in phase && phase[es[i].timer] == Firing
    }

    /** Different entries of the set belong to different timers. */
    lemma EntriesDistinct()
      requires Valid()
      ensures TimersDiffer(timers)
    {
      forall i, j | 0 <= i < j < |timers| ensures timers[i].timer != timers[j].timer {
        assert EntryOk(timers[i]) && EntryOk(timers[j]);
        assert Less(timers[i], timers[j]);
      }
    }

    /** lower_bound of the sentry (now, UINTPTR_MAX). */
    method Boundary(now: int) returns (k: nat)
      requires Valid()
      ensures k <= |timers| && k == Due(timers, now)
      ensures forall i :: 0 <= i < |timers| ==> (timers[i].when <= now <==> i < k)
    {
      DueIsDue(timers, now);
      k := 0;
      while k < |timers| && timers[k].when <= now
        invariant k <= |timers| && forall i :: 0 <= i < k ==> timers[i].when <= now
      {
        k := k + 1;
      }
    }

    /** Takes the first `k` entries out of the set. */
    method TakePrefix(k: nat) returns (expired: seq<Entry>)
      requires Valid() && k <= |timers|
      modifies this`timers, this`phase
      ensures Valid() && expired == old(timers)[..k] && Abs() == old(Abs()).(timers := old(timers)[k..])
      ensures FiringAll(expired) && phase == PhasesFired(old(phase), expired)
    {
      expired := timers[..k];
      EntriesDistinct();
      forall i | 0 <= i < k ensures expired[i].timer in phase && phase[expired[i].timer] == Queued {
        assert timers[i] in timers && EntryOk(timers[i]);
      }
      phase := PhasesFired(phase, expired);
      timers := timers[k..];
      forall e | e in timers ensures EntryOk(e) {
        assert old(EntryOk(e));
        var j :| 0 <= j < |timers| && timers[j] == e;
        assert old(timers)[k + j] == e;
      }
      forall t | t in phase ensures TimerOk(t) {
        assert old(TimerOk(t));
        if phase[t] == Queued { assert Entry(t.expiration, t) !in expired; }
      }
      forall t, u | t in phase && u in phase ensures Distinct(t, u) { assert old(Distinct(t, u)); }
    }

    /** getExpired: exactly the entries up to `now` leave the set, in order. */
    method GetExpired(now: int) returns (expired: seq<Entry>)
      requires Valid()
      modifies this`timers, this`phase
      ensures Valid() && expired == old(timers)[..Due(old(timers), now)] && IsDue(old(timers), now, expired)
      ensures Abs() == old(Abs()).(timers := old(timers)[Due(old(timers), now)..])
      ensures FiringAll(expired) && phase == PhasesFired(old(phase), expired)
    {
      DueIsDue(timers, now);
      var k := Boundary(now);
      expired := TakePrefix(k);
    }

    /** Restarting a timer that is not queued does not disturb the set. */
    method Postpone(timer: Timer, now: int)
      requires Valid() && timer in phase && phase[timer] == Firing && timer.repeat
      modifies timer`expiration
      ensures Valid() && timer.expiration == now + timer.interval
    {
      timer.Restart(now);
      forall e | e in timers ensures EntryOk(e) { assert old(EntryOk(e)); }
      forall t | t in phase ensures TimerOk(t) { assert old(TimerOk(t)); }
      forall t, u | t in phase && u in phase ensures Distinct(t, u) { assert old(Distinct(t, u)); }
    }

    ghost method Delete(timer: Timer)
      requires Valid() && timer in phase && phase[timer] == Firing
      modifies this`phase
      ensures Valid() && phase == old(phase)[timer := Deleted]
    {
      phase := phase[timer := Deleted];
      forall e | e in timers ensures EntryOk(e) { assert old(EntryOk(e)); }
      forall t | t in phase ensures TimerOk(t) { assert old(TimerOk(t)); }
      forall t, u | t in phase && u in phase ensures Distinct(t, u) { assert old(Distinct(t, u)); }
    }

    /** A repeating timer is queued again, a one-shot timer is deleted. */
    method Requeue(e: Entry)
      requires Valid() && e.timer in phase && phase[e.timer] == Firing
      modifies e.timer`expiration, this`timers, this`phase, this`clock, this`readings
      ensures Valid() && phase == old(phase)[e.timer := if e.timer.repeat then Queued else Deleted]
      ensures Abs() == Requeued(elapse, old(Abs()), e)
    {
      if e.timer.repeat {
        var now := Now();
        Postpone(e.timer, now);
        var _ := InsertTimer(e.timer);
      } else {
        Delete(e.timer);
      }
    }

    /** One iteration of reset; after it the queue is armed. */
    method ResetOne(e: Entry)
      requires Valid() && e.timer in phase && phase[e.timer] == Firing
      modifies e.timer`expiration
      modifies this`timers, this`phase, this`alarm, this`clock, this`readings, this`readAt, this`armedAt
      ensures Valid() && phase == old(phase)[e.timer := if e.timer.repeat then Queued else Deleted]
      ensures Abs() == Settled(elapse, old(Abs()), e) && Armed(Abs())
    {
      Requeue(e);
      if timers != [] {
        assert timers[0] in timers && EntryOk(timers[0]);
        ResetTimerfd(timers[0].timer.expiration);
      }
    }

    /** reset: every fired timer is queued again or deleted, and the alarm follows the queue. */
    method Reset(expired: seq<Entry>)
      requires Valid() && FiringAll(expired)
      modifies (set e | e in expired :: e.timer)`expiration
      modifies this`timers, this`phase, this`alarm, this`clock, this`readings, this`readAt, this`armedAt
      ensures Valid() && phase == PhasesSettled(old(phase), expired)
      ensures Abs() == SettledAll(elapse, old(Abs()), expired) && (expired != [] ==> Armed(Abs()))
    {
      if expired != [] { SettledAllArmed(elapse, Abs(), expired); }
      var i := 0;
      while i < |expired|
        invariant i <= |expired| && Valid()
        invariant phase == PhasesSettled(old(phase), expired[..i])
        invariant Abs() == SettledAll(elapse, old(Abs()), expired[..i])
      {
        SettledAt(old(phase), expired[..i], expired[i].timer);
        assert expired[..i + 1][..i] == expired[..i];
        ResetOne(expired[i]);
        i := i + 1;
      }
      assert expired[..i] == expired;
    }

    /** ReadTimerFd. */
    method ReadTimerFd()
      modifies this`clock, this`readings, this`alarm
      ensures Abs() == Consumed(Read(elapse, old(Abs())))
    {
      var moment := Now();
      if alarm.Some? && alarm.value <= moment { alarm := None; }
    }

    /** The callbacks, which add the timers `news`, and reset. */
    method FireAndReset(expired: seq<Entry>, news: seq<Entry>)
      requires Valid() && FiringAll(expired) && Newcomers(phase, news) && Current(news)
      modifies (set e | e in expired :: e.timer)`expiration
      modifies this`timers, this`phase, this`alarm, this`clock, this`readings, this`readAt, this`armedAt
      ensures Valid() && phase == PhasesSettled(PhasesJoined(old(phase), news), expired)
      ensures Abs() == SettledAll(elapse, AddedAll(elapse, old(Abs()), news), expired)
    {
      AddAll(news);
      forall i | 0 <= i < |expired| ensures expired[i].timer in phase && phase[expired[i].timer] == Firing {
        JoinedAt(old(phase), news, expired[i].timer);
      }
      Reset(expired);
    }

    method ReadClockAndAlarm() returns (now: int)
      requires Valid()
      modifies this`clock, this`readings, this`alarm
      ensures Valid() && now == Read(elapse, old(Abs())).clock
      ensures Abs() == Consumed(Read(elapse, Read(elapse, old(Abs()))))
    {
      now := Now();
      ReadTimerFd();
    }

    /** handleRead up to the callbacks. */
    method TakeExpired() returns (expired: seq<Entry>)
      requires Valid()
      modifies this`timers, this`phase, this`alarm, this`clock, this`readings
      ensures Valid() && Abs() == Expired(elapse, old(Abs())) && expired == DueNow(elapse, old(Abs()))
      ensures IsDue(old(timers), Read(elapse, old(Abs())).clock, expired)
      ensures FiringAll(expired) && phase == PhasesFired(old(phase), expired)
    {
      var now := ReadClockAndAlarm();
      expired := GetExpired(now);
    }

    /** Expired timers were queued. */
    lemma DueWereLive(expired: seq<Entry>)
      requires Valid() && expired <= timers
      ensures forall i :: 0 <= i < |expired| ==> expired[i].timer in phase && phase[expired[i].timer] != Deleted
    {
      forall i | 0 <= i < |expired|
        ensures expired[i].timer in phase && phase[expired[i].timer] != Deleted
      {
        assert timers[i] == expired[i] && EntryOk(timers[i]);
      }
    }

    /** handleRead: the due timers fire and are settled. */
    method FireDue(news: seq<Entry>) returns (ghost expired: seq<Entry>)
      requires Valid() && Newcomers(phase, news) && Current(news)
      modifies phase.Keys`expiration
      modifies this`timers, this`phase, this`alarm, this`clock, this`readings, this`readAt, this`armedAt
      ensures Valid() && expired == DueNow(elapse, old(Abs())) && Abs() == Handled(elapse, old(Abs()), news)
      ensures IsDue(old(timers), Read(elapse, old(Abs())).clock, expired)
      ensures phase == PhasesHandled(old(phase), expired, news) && GrownBy(old(phase), news, phase)
    {
      DueWereLive(DueNow(elapse, Abs()));
      HandledGrows(phase, DueNow(elapse, Abs()), news);
      var es := TakeExpired();
      expired := es;
      if es != [] {
        FiredNewcomers(old(phase), es, news);
        FireAndReset(es, news);
      } else {
        assert phase == old(phase);
      }
    }

    /** handleRead. */
    method HandleRead(news: seq<Entry>) returns (ghost expired: seq<Entry>)
      requires Valid() && Newcomers(phase, news) && Current(news)
      modifies phase.Keys`expiration
      modifies this`timers, this`phase, this`alarm, this`clock, this`readings, this`readAt, this`armedAt
      ensures Valid() && expired == DueNow(elapse, old(Abs())) && Abs() == Handled(elapse, old(Abs()), news)
      ensures IsDue(old(timers), Read(elapse, old(Abs())).clock, expired)
      ensures phase == PhasesHandled(old(phase), expired, news) && GrownBy(old(phase), news, phase)
      ensures old(timers) != [] && old(timers)[0].when <= old(clock) ==> Armed(Abs())
    {
      if timers != [] && timers[0].when <= clock { DueArms(elapse, Abs(), news); }
      expired := FireDue(news);
    }

    // ----- a pass of the event loop -----

    /** The pass up to the timer handler. */
    method PollAndHandle(before: seq<Entry>) returns (reported: bool)
      requires Valid() && Newcomers(phase, before) && Current(before)
      modifies this`timers, this`phase, this`alarm, this`clock, this`readings, this`readAt, this`armedAt
      ensures Valid() && reported == Fired(Read(elapse, old(Abs())))
      ensures Abs() == AddedAll(elapse, Read(elapse, old(Abs())), before)
      ensures phase == PhasesJoined(old(phase), before)
    {
      var now := Now();
      reported := alarm.Some? && alarm.value <= now;
      AddAll(before);
    }

    /** The pass up to the end of the timer handler's turn. */
    method RunHandlers(p: Pass) returns (ghost expired: seq<Entry>)
      requires Valid() && Newcomers(phase, p.before + p.news)
      requires Current(p.before) && Current(p.news)
      modifies phase.Keys`expiration, (set e | e in p.before :: e.timer)`expiration
      modifies this`timers, this`phase, this`alarm, this`clock, this`readings, this`readAt, this`armedAt
      ensures Valid() && Abs() == Passed(elapse, old(Abs()), p) && GrownBy(old(phase), p.before + p.news, phase)
      ensures expired == FiredIn(elapse, old(Abs()), p) && phase == PhasesAtTurn(old(phase), p, expired)
      ensures Fired(Read(elapse, old(Abs()))) ==>
                forall e :: e in old(timers) && e.when <= Read(elapse, old(Abs())).clock ==> e in expired
    {
      NewcomersSplit(phase, p.before, p.news);
      JoinedGrows(phase, p.before);
      var reported := PollAndHandle(p.before);
      expired := [];
      ghost var joined := phase;
      assert phase.Keys <= old(phase).Keys + set e | e in p.before :: e.timer by {
        forall t | t in phase ensures t in old(phase) || exists e :: e in p.before && e.timer == t {
          JoinedAt(old(phase), p.before, t);
        }
      }
      if reported {
        NewcomersStay(old(phase), p.before, p.news, phase);
        ReportFires(elapse, old(Abs()), p);
        expired := HandleRead(p.news);
      }
      GrowsTogether(old(phase), p.before, joined, p.news, phase);
    }

    /** A whole pass. */
    method FinishPass(p: Pass) returns (ghost expired: seq<Entry>)
      requires Valid() && Newcomers(phase, p.before + p.news + p.later)
      requires Current(p.before) && Current(p.news) && Current(p.later)
      modifies phase.Keys`expiration, (set e | e in p.before :: e.timer)`expiration
      modifies this`timers, this`phase, this`alarm, this`clock, this`readings, this`readAt, this`armedAt
      ensures Valid() && Abs() == Ended(elapse, old(Abs()), p)
      ensures expired == FiredIn(elapse, old(Abs()), p) && phase == PhasesPassed(old(phase), p, expired)
      ensures GrownBy(old(phase), p.before + p.news + p.later, phase)
      ensures Fired(Read(elapse, old(Abs()))) ==>
                forall e :: e in old(timers) && e.when <= Read(elapse, old(Abs())).clock ==> e in expired
    {
      NewcomersSplit(phase, p.before + p.news, p.later);
      LaterUntouched(phase, p, phase.Keys + set e | e in p.before :: e.timer);
      expired := RunHandlers(p);
      NewcomersStay(old(phase), p.before + p.news, p.later, phase);
      assert Current(p.later);
      ghost var turn := phase;
      JoinedGrows(turn, p.later);
      GrowsTogether(old(phase), p.before + p.news, turn, p.later, PhasesJoined(turn, p.later));
      AddAll(p.later);
    }

    /** A whole pass: every timer due at a reported alarm fires, and the queue goes on with its run. */
    method RunPass(p: Pass) returns (ghost expired: seq<Entry>)
      requires Valid() && OnRun() && Newcomers(phase, p.before + p.news + p.later)
      requires Current(p.before) && Current(p.news) && Current(p.later)
      modifies phase.Keys`expiration, (set e | e in p.before :: e.timer)`expiration
      modifies this`timers, this`phase, this`alarm, this`clock, this`readings, this`readAt, this`armedAt, this`passes
      ensures Valid() && OnRun() && passes == old(passes) + [p]
      ensures expired == FiredIn(elapse, old(Abs()), p) && phase == PhasesPassed(old(phase), p, expired)
      ensures GrownBy(old(phase), p.before + p.news + p.later, phase)
      ensures Fired(Read(elapse, old(Abs()))) ==>
                forall e :: e in old(timers) && e.when <= Read(elapse, old(Abs())).clock ==> e in expired
    {
      expired := FinishPass(p);
      Record(p);
      OnePass(elapse, start, old(passes), p);
    }

    ghost method Record(p: Pass)
      requires Valid()
      modifies this`passes
      ensures Valid() && Abs() == old(Abs()) && phase == old(phase) && passes == old(passes) + [p]
    {
      passes := passes + [p];
      assert Valid();
    }
  }
}
