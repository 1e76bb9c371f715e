/** What src/TimerQueue.cc does to its timers, its alarm and its readings of the clock, as functions.
    All times are microseconds of one clock that never goes back.  How much time passes before each
    reading of it is given by a Clock, so that a statement about every Clock is a statement about
    every course of time. */
module TimerRuns {
  import opened Ordering
  import opened Timers
  import opened Wrappers

  const MIN_DELAY := 100

  /** The time that passes before each reading: Timestamp::now(), timerfd_settime, the read of the
      timerfd, the return of poll. */
  type Clock = nat -> nat

  datatype Queue = Queue(
    timers: seq<Entry>,    // timers_, in the order of the set
    alarm: Option<int>,    // when the timerfd fires or fired; None once read or never set
    clock: int,
    readings: nat,         // how often the clock has been read
    readAt: int,           // the reading of the clock by the last resetTimerfd ...
    armedAt: int)          // ... and the moment it set the alarm

  function Max(a: int, b: int): int { if a < b then b else a }

  // ----- the operations -----

  function NewQueue(clock: int): Queue { Queue([], None, clock, 0, clock, clock) }

  function Read(c: Clock, q: Queue): Queue { q.(clock := q.clock + c(q.readings), readings := q.readings + 1) }

  /** resetTimerfd. */
  function Rearmed(c: Clock, q: Queue, expiration: int): Queue {
    var r := Read(c, q);
    var a := Read(c, r);
    a.(alarm := Some(a.clock + Max(expiration - r.clock, MIN_DELAY)), readAt := r.clock, armedAt := a.clock)
  }

  /** addTimerInLoop. */
  function Added(c: Clock, q: Queue, e: Entry): Queue {
    var u := q.(timers := InsertEntry(q.timers, e));
    if q.timers == [] || e.when < q.timers[0].when then Rearmed(c, u, e.when) else u
  }

  function AddedAll(c: Clock, q: Queue, es: seq<Entry>): Queue {
    if es == [] then q else Added(c, AddedAll(c, q, es[..|es| - 1]), es[|es| - 1])
  }

  predicate Fired(q: Queue) { q.alarm.Some? && q.alarm.value <= q.clock }

  /** ReadTimerFd: a fired alarm is consumed; otherwise the non-blocking read changes nothing. */
  function Consumed(q: Queue): Queue { if Fired(q) then q.(alarm := None) else q }

  /** How many timers at the front are due. */
  function Due(s: seq<Entry>, now: int): (k: nat)
    ensures k <= |s| && (forall i :: 0 <= i < k ==> s[i].when <= now) && (k < |s| ==> s[k].when > now)
  {
    if s == [] || s[0].when > now then 0 else 1 + Due(s[1..], now)
  }

  /** A repeating timer is queued again, an interval after the reading of the clock. */
  function Requeued(c: Clock, q: Queue, e: Entry): Queue {
    if !e.timer.repeat then q else
      var r := Read(c, q);
      r.(timers := InsertEntry(r.timers, Entry(r.clock + e.timer.interval, e.timer)))
  }

  /** One iteration of reset. */
  function Settled(c: Clock, q: Queue, e: Entry): Queue {
    var u := Requeued(c, q, e);
    if u.timers == [] then u else Rearmed(c, u, u.timers[0].when)
  }

  /** reset. */
  function SettledAll(c: Clock, q: Queue, es: seq<Entry>): Queue {
    if es == [] then q else Settled(c, SettledAll(c, q, es[..|es| - 1]), es[|es| - 1])
  }

  /** handleRead up to the callbacks: the queue without the expired timers ... */
  function Expired(c: Clock, q: Queue): Queue {
    var r := Read(c, q);
    Consumed(Read(c, r)).(timers := q.timers[Due(q.timers, r.clock)..])
  }

  /** ... and these. */
  function DueNow(c: Clock, q: Queue): seq<Entry> { q.timers[..Due(q.timers, Read(c, q).clock)] }

  /** handleRead, whose callbacks between them add the timers `news`; none runs if nothing is due. */
  function Handled(c: Clock, q: Queue, news: seq<Entry>): Queue {
    if DueNow(c, q) == [] then Expired(c, q)
    else SettledAll(c, AddedAll(c, Expired(c, q), news), DueNow(c, q))
  }

  /** One pass of the event loop: the timers that handlers add before the timer queue's own handler
      has its turn, those its callbacks add, and those added later in the pass. */
  datatype Pass = Pass(before: seq<Entry>, news: seq<Entry>, later: seq<Entry>)

  /** The pass up to the place of the timer handler in the list of active channels ... */
  function Called(c: Clock, q: Queue, p: Pass): Queue { AddedAll(c, Read(c, q), p.before) }

  /** ... past it; the handler is called if poll reported the alarm ... */
  function Passed(c: Clock, q: Queue, p: Pass): Queue {
    if Fired(Read(c, q)) then Handled(c, Called(c, q, p), p.news) else Called(c, q, p)
  }

  /** ... and to its end. */
  function Ended(c: Clock, q: Queue, p: Pass): Queue { AddedAll(c, Passed(c, q, p), p.later) }

  /** The timers that a pass fires. */
  function FiredIn(c: Clock, q: Queue, p: Pass): seq<Entry> {
    if Fired(Read(c, q)) then DueNow(c, Called(c, q, p)) else []
  }

  /** The queue after the passes `ps`. */
  function After(c: Clock, start: int, ps: seq<Pass>): Queue {
    if ps == [] then NewQueue(start) else Ended(c, After(c, start, ps[..|ps| - 1]), ps[|ps| - 1])
  }

  // ----- the alarm -----

  /** If a timer is queued, the alarm is set for the earliest one: not before it is due, and not
      later than that or 100 microseconds after the clock was read, whichever is later, plus
      the time between reading the clock and setting the alarm. */
  predicate Armed(q: Queue) {
    q.timers != [] ==>
      && q.readAt <= q.armedAt && q.alarm.Some?
      && q.timers[0].when <= q.alarm.value
      && q.armedAt < q.alarm.value <= Max(q.timers[0].when, q.readAt + MIN_DELAY) + (q.armedAt - q.readAt)
  }

  lemma {:induction false} AddedAllKeeps(c: Clock, q: Queue, es: seq<Entry>)
    ensures var t := AddedAll(c, q, es);
            && (Armed(q) ==> Armed(t)) && t.clock >= q.clock
            && (t.timers == [] <==> q.timers == [] && es == [])
            && (q.timers != [] ==> t.timers[0].when <= q.timers[0].when)
  {
    if es != [] { AddedAllKeeps(c, q, es[..|es| - 1]); }
  }

  lemma {:induction false} SettledAllArmed(c: Clock, q: Queue, es: seq<Entry>)
    requires es != []
    ensures Armed(SettledAll(c, q, es))
  {
  }

  /** handleRead leaves the queue armed exactly if it fires a timer, or has none to fire, or does not
      consume the alarm. */
  lemma HandledArmed(c: Clock, q: Queue, news: seq<Entry>)
    requires Armed(q)
    ensures Armed(Handled(c, q, news)) <==>
            q.timers == [] || DueNow(c, q) != [] || Read(c, Read(c, q)).clock < q.alarm.value
  {
    if DueNow(c, q) != [] {
      SettledAllArmed(c, AddedAll(c, Expired(c, q), news), DueNow(c, q));
    } else {
      assert Due(q.timers, Read(c, q).clock) == 0;
      assert q.timers[0..] == q.timers;
    }
  }

  lemma AddedArmed(c: Clock, q: Queue, e: Entry)
    requires Armed(q)
    ensures Armed(Added(c, q, e))
  {
  }

  /** A timer that is not the earliest leaves the alarm alone, and the clock unread. */
  lemma LaterTimerLeavesAlarm(c: Clock, q: Queue, e: Entry)
    requires q.timers != [] && q.timers[0].when <= e.when
    ensures var t := Added(c, q, e); t == q.(timers := t.timers) && t.timers[0].when == q.timers[0].when
  {
  }

  /** If its earliest timer is due at the call, the handler arms the queue, whatever it was before. */
  lemma DueArms(c: Clock, q: Queue, news: seq<Entry>)
    requires q.timers != [] && q.timers[0].when <= q.clock
    ensures Armed(Handled(c, q, news))
  {
    SettledAllArmed(c, AddedAll(c, Expired(c, q), news), DueNow(c, q));
  }

  /** No time passes before any reading but one. */
  function Jump(reading: nat, elapsed: nat): Clock { k => if k == reading then elapsed else 0 }

  /** Called on an armed queue, the handler leaves it armed whatever the clock does, exactly if the
      queue is empty or its earliest timer is due at the call. */
  lemma HandlerArmsIff(q: Queue, news: seq<Entry>)
    requires Armed(q)
    ensures (forall c :: Armed(Handled(c, q, news))) <==> (q.timers == [] || q.timers[0].when <= q.clock)
  {
    if q.timers == [] || q.timers[0].when <= q.clock {
      forall c ensures Armed(Handled(c, q, news)) { HandledArmed(c, q, news); }
    } else {
      var c := Jump(q.readings + 1, Max(q.alarm.value - q.clock, 0));
      HandledArmed(c, q, news);
      assert !Armed(Handled(c, q, news));
    }
  }

  /** `due` is the part of the ordered entries `all` whose time has come by `now`. */
  ghost predicate IsDue(all: seq<Entry>, now: int, due: seq<Entry>) {
    due <= all && forall i :: 0 <= i < |all| ==> (all[i].when <= now <==> i < |due|)
  }

  lemma DueIsDue(s: seq<Entry>, now: int)
    requires Sorted(s)
    ensures IsDue(s, now, s[..Due(s, now)])
  {
    var k := Due(s, now);
    forall i | k < i < |s| ensures s[i].when > now { assert Less(s[k], s[i]); }
  }

  lemma {:induction false} AddedAllMember(c: Clock, q: Queue, es: seq<Entry>, e: Entry)
    ensures e in AddedAll(c, q, es).timers <==> e in q.timers || e in es
  {
    if es != [] {
      var front, last := es[..|es| - 1], es[|es| - 1];
      AddedAllMember(c, q, front, e);
      var before := AddedAll(c, q, front).timers;
      assert AddedAll(c, q, es).timers == InsertEntry(before, last);
      InsertMember(Less, before, last, e);
      assert es == front + [last];
    }
  }

  /** In a pass that reports the alarm the handler fires every timer that was due at the report, and
      at least one if the queue was armed and not empty. */
  lemma ReportFires(c: Clock, q: Queue, p: Pass)
    requires Fired(Read(c, q)) && Sorted(Called(c, q, p).timers)
    ensures forall e :: e in q.timers && e.when <= Read(c, q).clock ==> e in DueNow(c, Called(c, q, p))
    ensures Armed(q) && q.timers != [] ==> DueNow(c, Called(c, q, p)) != []
  {
    var u := Called(c, q, p);
    var now := Read(c, u).clock;
    AddedAllKeeps(c, Read(c, q), p.before);
    DueIsDue(u.timers, now);
    forall e | e in q.timers && e.when <= Read(c, q).clock ensures e in DueNow(c, u) {
      AddedAllMember(c, Read(c, q), p.before, e);
      var i :| 0 <= i < |u.timers| && u.timers[i] == e;
      assert DueNow(c, u)[i] == e;
    }
  }

  // ----- a pass depends only on the readings it makes -----

  ghost predicate Agree(c: Clock, d: Clock, n: nat) { forall k: nat :: k < n ==> c(k) == d(k) }

  lemma RearmedSame(c: Clock, d: Clock, q: Queue, expiration: int)
    requires Agree(c, d, q.readings + 2)
    ensures Rearmed(d, q, expiration) == Rearmed(c, q, expiration)
    ensures Rearmed(c, q, expiration).readings == q.readings + 2
  {
  }

  lemma AddedSame(c: Clock, d: Clock, q: Queue, e: Entry)
    requires Agree(c, d, Added(c, q, e).readings)
    ensures Added(d, q, e) == Added(c, q, e) && q.readings <= Added(c, q, e).readings
  {
    if q.timers == [] || e.when < q.timers[0].when {
      RearmedSame(c, d, q.(timers := InsertEntry(q.timers, e)), e.when);
    }
  }

  lemma {:induction false} AddedAllSame(c: Clock, d: Clock, q: Queue, es: seq<Entry>)
    requires Agree(c, d, AddedAll(c, q, es).readings)
    ensures AddedAll(d, q, es) == AddedAll(c, q, es) && q.readings <= AddedAll(c, q, es).readings
  {
    if es != [] {
      AddedSame(c, d, AddedAll(c, q, es[..|es| - 1]), es[|es| - 1]);
      AddedAllSame(c, d, q, es[..|es| - 1]);
    }
  }

  lemma SettledSame(c: Clock, d: Clock, q: Queue, e: Entry)
    requires Agree(c, d, Settled(c, q, e).readings)
    ensures Settled(d, q, e) == Settled(c, q, e) && q.readings <= Settled(c, q, e).readings
  {
    var u := Requeued(c, q, e);
    if u.timers != [] { RearmedSame(c, d, u, u.timers[0].when); }
  }

  lemma {:induction false} SettledAllSame(c: Clock, d: Clock, q: Queue, es: seq<Entry>)
    requires Agree(c, d, SettledAll(c, q, es).readings)
    ensures SettledAll(d, q, es) == SettledAll(c, q, es) && q.readings <= SettledAll(c, q, es).readings
  {
    if es != [] {
      SettledSame(c, d, SettledAll(c, q, es[..|es| - 1]), es[|es| - 1]);
      SettledAllSame(c, d, q, es[..|es| - 1]);
    }
  }

  lemma ExpiredSame(c: Clock, d: Clock, q: Queue)
    requires Agree(c, d, q.readings + 2)
    ensures Expired(d, q) == Expired(c, q) && DueNow(d, q) == DueNow(c, q) && Expired(c, q).readings == q.readings + 2
  {
  }

  lemma HandledSame(c: Clock, d: Clock, q: Queue, news: seq<Entry>)
    requires Agree(c, d, Handled(c, q, news).readings)
    ensures Handled(d, q, news) == Handled(c, q, news) && q.readings <= Handled(c, q, news).readings
  {
    if DueNow(c, q) != [] {
      SettledAllSame(c, d, AddedAll(c, Expired(c, q), news), DueNow(c, q));
      AddedAllSame(c, d, Expired(c, q), news);
    }
    ExpiredSame(c, d, q);
  }

  lemma CalledSame(c: Clock, d: Clock, q: Queue, p: Pass)
    requires Agree(c, d, Called(c, q, p).readings)
    ensures Read(d, q) == Read(c, q) && Called(d, q, p) == Called(c, q, p) && q.readings <= Called(c, q, p).readings
  {
    AddedAllSame(c, d, Read(c, q), p.before);
  }

  lemma EndedSame(c: Clock, d: Clock, q: Queue, p: Pass)
    requires Agree(c, d, Ended(c, q, p).readings)
    ensures Ended(d, q, p) == Ended(c, q, p) && q.readings <= Ended(c, q, p).readings
  {
    AddedAllSame(c, d, Passed(c, q, p), p.later);
    if Fired(Read(c, q)) { HandledSame(c, d, Called(c, q, p), p.news); }
    CalledSame(c, d, q, p);
  }

  lemma {:induction false} AfterSame(c: Clock, d: Clock, start: int, ps: seq<Pass>)
    requires Agree(c, d, After(c, start, ps).readings)
    ensures After(d, start, ps) == After(c, start, ps)
  {
    if ps != [] {
      EndedSame(c, d, After(c, start, ps[..|ps| - 1]), ps[|ps| - 1]);
      AfterSame(c, d, start, ps[..|ps| - 1]);
    }
  }

  // ----- whole runs -----

  /** poll reported an alarm while no timer was queued, and by the call of the handler others have
      added timers of which none is due. */
  predicate Hazard(c: Clock, q: Queue, p: Pass) {
    var u := Called(c, q, p);
    Fired(Read(c, q)) && q.timers == [] && u.timers != [] && u.timers[0].when > u.clock
  }

  lemma PassArmed(c: Clock, q: Queue, p: Pass)
    requires Armed(q) && !Hazard(c, q, p)
    ensures Armed(Passed(c, q, p)) && Armed(Ended(c, q, p))
  {
    AddedAllKeeps(c, Read(c, q), p.before);
    if Fired(Read(c, q)) {
      HandledArmed(c, Called(c, q, p), p.news);
    }
    AddedAllKeeps(c, Passed(c, q, p), p.later);
  }

  function Before(c: Clock, start: int, ps: seq<Pass>, i: nat): Queue
    requires i <= |ps|
  {
    After(c, start, ps[..i])
  }

  ghost predicate Hazardous(c: Clock, start: int, ps: seq<Pass>, i: nat) {
    i < |ps| && Hazard(c, Before(c, start, ps, i), ps[i])
  }

  ghost predicate ArmedIn(c: Clock, start: int, ps: seq<Pass>, i: nat) {
    i < |ps| ==> Armed(Before(c, start, ps, i)) && Armed(Passed(c, Before(c, start, ps, i), ps[i]))
  }

  lemma {:induction false} RunArmed(c: Clock, start: int, ps: seq<Pass>, i: nat)
    requires i <= |ps| && forall j: nat :: !Hazardous(c, start, ps, j)
    ensures Armed(Before(c, start, ps, i))
  {
    if i > 0 {
      RunArmed(c, start, ps, i - 1);
      assert !Hazardous(c, start, ps, i - 1);
      PassArmed(c, Before(c, start, ps, i - 1), ps[i - 1]);
      assert ps[..i][..i - 1] == ps[..i - 1];
    }
  }

  /** As `c` for the first `n` readings, and no time after them except before the second one. */
  function Diverted(c: Clock, n: nat, elapsed: nat): Clock {
    (k: nat) => if k < n then c(k) else Jump(n + 1, elapsed)(k)
  }

  /** A hazard is one: with the same past, a clock that goes on past the alarm between the two
      readings of handleRead leaves timers queued and no alarm set for them. */
  lemma HazardLoses(c: Clock, start: int, ps: seq<Pass>, i: nat) returns (d: Clock)
    requires Hazardous(c, start, ps, i)
    ensures !ArmedIn(d, start, ps, i)
  {
    var q, p := Before(c, start, ps, i), ps[i];
    var u := Called(c, q, p);
    AddedAllKeeps(c, Read(c, q), p.before);
    d := Diverted(c, u.readings, Max(u.alarm.value - u.clock, 0));
    CalledSame(c, d, q, p);
    AfterSame(c, d, start, ps[..i]);
    HandledArmed(d, u, p.news);
  }

  /** The queue is armed before every pass and after every call of its handler, whatever the clock
      does, exactly if the passes allow no hazard. */
  lemma AlwaysArmedIff(start: int, ps: seq<Pass>)
    ensures (forall c, i: nat :: ArmedIn(c, start, ps, i)) <==> !exists c, i: nat :: Hazardous(c, start, ps, i)
  {
    if c, i: nat :| Hazardous(c, start, ps, i) {
      var d := HazardLoses(c, start, ps, i);
    } else {
      forall c, i: nat ensures ArmedIn(c, start, ps, i) {
        if i < |ps| {
          RunArmed(c, start, ps, i);
          assert !Hazardous(c, start, ps, i);
          PassArmed(c, Before(c, start, ps, i), ps[i]);
        }
      }
    }
  }

  /** If handlers never add timers ahead of the timer handler, no clock can do harm. */
  lemma NoneBeforeIsSafe(c: Clock, start: int, ps: seq<Pass>, i: nat)
    requires forall j :: 0 <= j < |ps| ==> ps[j].before == []
    ensures ArmedIn(c, start, ps, i)
  {
    AlwaysArmedIff(start, ps);
  }

  // ----- a run that loses a timer -----

  const IDLE := Pass([], [], [])

  lemma AddedOne(c: Clock, q: Queue, e: Entry)
    ensures AddedAll(c, q, [e]) == Added(c, q, e)
  {
    assert [e][..0] == [];
  }

  lemma OnePass(c: Clock, start: int, ps: seq<Pass>, p: Pass)
    ensures After(c, start, ps + [p]) == Ended(c, After(c, start, ps), p)
  {
    assert (ps + [p])[..|ps|] == ps;
  }

  /** `n` passes in which nobody adds a timer. */
  function Waited(c: Clock, q: Queue, n: nat): Queue { if n == 0 then q else Ended(c, Waited(c, q, n - 1), IDLE) }

  lemma StrandedPass(c: Clock, q: Queue)
    requires q.alarm.None?
    ensures Ended(c, q, IDLE).timers == q.timers && Ended(c, q, IDLE).alarm.None?
  {
  }

  /** Queued timers without an alarm stay there until someone adds a timer. */
  lemma {:induction false} StrandedForGood(c: Clock, q: Queue, n: nat)
    requires q.alarm.None?
    ensures Waited(c, q, n).timers == q.timers && Waited(c, q, n).alarm.None?
  {
    if n > 0 {
      StrandedForGood(c, q, n - 1);
      StrandedPass(c, Waited(c, q, n - 1));
    }
  }

  lemma {:induction false} OneShotsDeleted(c: Clock, q: Queue, es: seq<Entry>)
    requires q.timers == [] && forall i :: 0 <= i < |es| ==> !es[i].timer.repeat
    ensures SettledAll(c, q, es) == q
  {
    if es != [] { OneShotsDeleted(c, q, es[..|es| - 1]); }
  }

  /** The first timer of the losing run becomes due ... */
  function Losing(e1: Entry, e2: Entry, e3: Entry): seq<Pass> {
    [Pass([], [], [e1]), Pass([e2], [], []), Pass([e3], [], [])]
  }

  function LosingClock(): Clock { k => if k == 3 || k == 8 then 100 else if k == 12 then 800 else 0 }

  lemma LosingFirst(e1: Entry)
    requires e1.when == 10
    ensures Ended(LosingClock(), NewQueue(0), Pass([], [], [e1])) == Queue([e1], Some(100), 0, 3, 0, 0)
  {
    AddedOne(LosingClock(), Read(LosingClock(), NewQueue(0)), e1);
  }

  /** ... an earlier handler of the pass that reports it adds a second, past one, so that the alarm is
      moved on; the handler fires both and leaves the queue empty with that alarm still set ... */
  lemma LosingSecond(e1: Entry, e2: Entry)
    requires e1.when == 10 && e2.when == 5 && !e1.timer.repeat && !e2.timer.repeat
    ensures Ended(LosingClock(), Queue([e1], Some(100), 0, 3, 0, 0), Pass([e2], [], []))
         == Queue([], Some(200), 100, 8, 100, 100)
  {
    var c := LosingClock();
    var q := Queue([e1], Some(100), 0, 3, 0, 0);
    AddedOne(c, Read(c, q), e2);
    var u := Called(c, q, Pass([e2], [], []));
    assert u == Queue([e2, e1], Some(200), 100, 6, 100, 100);
    assert DueNow(c, u) == [e2, e1];
    OneShotsDeleted(c, Expired(c, u), [e2, e1]);
  }

  /** ... and a later pass that reports it adds the third, which is not due when the handler reads the
      clock, but whose alarm has gone off when the handler reads the timerfd. */
  lemma LosingThird(e3: Entry)
    requires e3.when == 1000
    ensures var q := Ended(LosingClock(), Queue([], Some(200), 100, 8, 100, 100), Pass([e3], [], []));
            q.timers == [e3] && q.alarm.None?
  {
    var c := LosingClock();
    var q := Queue([], Some(200), 100, 8, 100, 100);
    AddedOne(c, Read(c, q), e3);
    var u := Called(c, q, Pass([e3], [], []));
    assert u == Queue([e3], Some(1000), 200, 11, 200, 200);
    assert DueNow(c, u) == [] && Expired(c, u).timers == [e3][0..];
  }

  lemma LosingStart(e1: Entry, e2: Entry)
    requires e1.when == 10 && e2.when == 5 && !e1.timer.repeat && !e2.timer.repeat
    ensures After(LosingClock(), 0, [Pass([], [], [e1]), Pass([e2], [], [])]) == Queue([], Some(200), 100, 8, 100, 100)
  {
    var p1, p2 := Pass([], [], [e1]), Pass([e2], [], []);
    assert [] + [p1] == [p1] && [p1] + [p2] == [p1, p2];
    OnePass(LosingClock(), 0, [], p1);
    OnePass(LosingClock(), 0, [p1], p2);
    LosingFirst(e1);
    LosingSecond(e1, e2);
  }

  lemma LosingEnd(e1: Entry, e2: Entry, e3: Entry)
    requires e1.when == 10 && e2.when == 5 && e3.when == 1000 && !e1.timer.repeat && !e2.timer.repeat
    ensures var q := After(LosingClock(), 0, Losing(e1, e2, e3)); q.timers == [e3] && q.alarm.None?
  {
    var ps := Losing(e1, e2, e3);
    assert [ps[0], ps[1]] + [ps[2]] == ps;
    LosingStart(e1, e2);
    OnePass(LosingClock(), 0, [ps[0], ps[1]], ps[2]);
    LosingThird(e3);
  }

  /** From a new queue, three one-shot timers and three passes of which the last is a hazard: the third
      timer is queued for good, however many passes follow. */
  lemma TimerLost(e1: Entry, e2: Entry, e3: Entry, n: nat)
    requires e1.when == 10 && e2.when == 5 && e3.when == 1000 && !e1.timer.repeat && !e2.timer.repeat
    ensures var q := Waited(LosingClock(), After(LosingClock(), 0, Losing(e1, e2, e3)), n);
            q.timers == [e3] && q.alarm.None?
  {
    LosingEnd(e1, e2, e3);
    StrandedForGood(LosingClock(), After(LosingClock(), 0, Losing(e1, e2, e3)), n);
  }
}
