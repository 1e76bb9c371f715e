/** When a timer fires again: a repeater is queued for one interval after the reading of the clock at
    which it was reset, a one-shot timer is gone, and two firings of a repeater are at least its
    interval apart on every run. */
module TimerRepeats {
  import opened Ordering
  import opened Timers
  import opened TimerRuns

  /** `x` is what a reset between the moments `lo` and `hi` makes of the fired entry `e`. */
  predicate Again(e: Entry, x: Entry, lo: int, hi: int) {
    e.timer.repeat && x.timer == e.timer && lo + e.timer.interval <= x.when <= hi + e.timer.interval
  }

  ghost predicate AgainOf(es: seq<Entry>, x: Entry, lo: int, hi: int) {
    exists i :: 0 <= i < |es| && Again(es[i], x, lo, hi)
  }

  // ----- one reset -----

  lemma SettledMember(c: Clock, q: Queue, e: Entry, x: Entry)
    ensures x in Settled(c, q, e).timers <==>
            x in q.timers || (e.timer.repeat && x == Entry(Read(c, q).clock + e.timer.interval, e.timer))
    ensures q.clock <= Settled(c, q, e).clock && (e.timer.repeat ==> Read(c, q).clock <= Settled(c, q, e).clock)
  {
    if e.timer.repeat {
      InsertMember(Less, q.timers, Entry(Read(c, q).clock + e.timer.interval, e.timer), x);
    }
  }

  /** Nothing is in the queue after a reset that was not there or is due again. */
  lemma {:induction false} SettledAllMember(c: Clock, q: Queue, es: seq<Entry>, x: Entry)
    ensures q.clock <= SettledAll(c, q, es).clock
    ensures x in q.timers ==> x in SettledAll(c, q, es).timers
    ensures x in SettledAll(c, q, es).timers ==> x in q.timers || AgainOf(es, x, q.clock, SettledAll(c, q, es).clock)
  {
    if es != [] {
      var front, e := es[..|es| - 1], es[|es| - 1];
      var p := SettledAll(c, q, front);
      SettledAllMember(c, q, front, x);
      SettledMember(c, p, e, x);
      if x in p.timers && x !in q.timers {
        var i :| 0 <= i < |front| && Again(front[i], x, q.clock, p.clock);
        assert Again(es[i], x, q.clock, SettledAll(c, q, es).clock);
      } else if x in SettledAll(c, q, es).timers && x !in q.timers {
        assert Again(es[|es| - 1], x, q.clock, SettledAll(c, q, es).clock);
      }
    }
  }

  /** And every fired repeater is. */
  lemma {:induction false} SettledAllAgain(c: Clock, q: Queue, es: seq<Entry>, i: nat) returns (x: Entry)
    requires i < |es| && es[i].timer.repeat
    ensures x in SettledAll(c, q, es).timers && Again(es[i], x, q.clock, SettledAll(c, q, es).clock)
  {
    var front, e := es[..|es| - 1], es[|es| - 1];
    var p := SettledAll(c, q, front);
    if i < |es| - 1 {
      x := SettledAllAgain(c, q, front, i);
      SettledMember(c, p, e, x);
    } else {
      x := Entry(Read(c, p).clock + e.timer.interval, e.timer);
      SettledMember(c, p, e, x);
      SettledAllMember(c, q, front, x);
    }
  }

  // ----- the handler -----

  lemma ExpiredClock(c: Clock, q: Queue, news: seq<Entry>)
    ensures Read(c, q).clock <= AddedAll(c, Expired(c, q), news).clock
  {
    AddedAllKeeps(c, Expired(c, q), news);
  }

  /** A repeater that fires is queued again, for one interval after a moment between the handler's reading
      of the clock and its end. */
  lemma RepeaterQueuedAgain(c: Clock, q: Queue, news: seq<Entry>, e: Entry) returns (x: Entry)
    requires e in DueNow(c, q) && e.timer.repeat
    ensures x in Handled(c, q, news).timers && Again(e, x, Read(c, q).clock, Handled(c, q, news).clock)
  {
    var i :| 0 <= i < |DueNow(c, q)| && DueNow(c, q)[i] == e;
    ExpiredClock(c, q, news);
    x := SettledAllAgain(c, AddedAll(c, Expired(c, q), news), DueNow(c, q), i);
  }

  /** What is queued after the handler: what was queued and not due, what the callbacks added, and the
      repeaters that fired. */
  lemma HandledMember(c: Clock, q: Queue, news: seq<Entry>, x: Entry)
    requires x in Handled(c, q, news).timers
    ensures x in Expired(c, q).timers || x in news ||
            AgainOf(DueNow(c, q), x, Read(c, q).clock, Handled(c, q, news).clock)
  {
    if DueNow(c, q) != [] {
      var r := AddedAll(c, Expired(c, q), news);
      SettledAllMember(c, r, DueNow(c, q), x);
      AddedAllMember(c, Expired(c, q), news, x);
      ExpiredClock(c, q, news);
      if AgainOf(DueNow(c, q), x, r.clock, Handled(c, q, news).clock) {
        var i :| 0 <= i < |DueNow(c, q)| && Again(DueNow(c, q)[i], x, r.clock, Handled(c, q, news).clock);
        assert Again(DueNow(c, q)[i], x, Read(c, q).clock, Handled(c, q, news).clock);
      }
    }
  }

  lemma StaysQueued(c: Clock, q: Queue, news: seq<Entry>, x: Entry)
    requires x in Expired(c, q).timers
    ensures x in Handled(c, q, news).timers
  {
    if DueNow(c, q) != [] {
      AddedAllMember(c, Expired(c, q), news, x);
      SettledAllMember(c, AddedAll(c, Expired(c, q), news), DueNow(c, q), x);
    }
  }

  lemma DueOrExpired(c: Clock, q: Queue, x: Entry)
    ensures x in q.timers <==> x in DueNow(c, q) || x in Expired(c, q).timers
    ensures x in DueNow(c, q) ==> x.when <= Read(c, q).clock
  {
    var k := Due(q.timers, Read(c, q).clock);
    assert q.timers == q.timers[..k] + q.timers[k..];
  }

  /** If timers are queued once each, a one-shot timer that fires is gone. */
  lemma OneShotGone(c: Clock, q: Queue, news: seq<Entry>, e: Entry)
    requires TimersDiffer(q.timers) && e in DueNow(c, q) && !e.timer.repeat && !Among(news, e.timer)
    ensures !Among(Handled(c, q, news).timers, e.timer)
  {
    forall x | x in Handled(c, q, news).timers ensures x.timer != e.timer {
      HandledMember(c, q, news, x);
      FiredOnce(c, q, e, x);
      if x in news { AmongMember(news, x); }
    }
  }

  lemma FiredOnce(c: Clock, q: Queue, e: Entry, x: Entry)
    requires TimersDiffer(q.timers) && e in DueNow(c, q)
    ensures x in Expired(c, q).timers ==> x.timer != e.timer
  {
    var k := Due(q.timers, Read(c, q).clock);
    var i :| 0 <= i < k && q.timers[i] == e;
    if x in Expired(c, q).timers {
      var j :| 0 <= j < |q.timers[k..]| && q.timers[k..][j] == x;
      assert q.timers[k + j] == x;
    }
  }

  // ----- a repeater between its firings -----

  /** `t` is queued, and not to fire before `n`. */
  ghost predicate DueFrom(q: Queue, t: Timer, n: int) {
    Among(q.timers, t) && forall x :: x in q.timers && x.timer == t ==> x.when >= n
  }

  lemma AddedDueFrom(c: Clock, q: Queue, es: seq<Entry>, t: Timer, n: int)
    requires DueFrom(q, t, n) && !Among(es, t)
    ensures DueFrom(AddedAll(c, q, es), t, n)
  {
    var r := AddedAll(c, q, es);
    var i :| 0 <= i < |q.timers| && q.timers[i].timer == t;
    AddedAllMember(c, q, es, q.timers[i]);
    var j :| 0 <= j < |r.timers| && r.timers[j] == q.timers[i];
    forall x | x in r.timers && x.timer == t ensures x.when >= n {
      AddedAllMember(c, q, es, x);
      if x in es { AmongMember(es, x); }
    }
  }

  lemma AmongMember(s: seq<Entry>, x: Entry)
    requires x in s
    ensures Among(s, x.timer)
  {
    var i :| 0 <= i < |s| && s[i] == x;
  }

  /** The handler does not bring a repeater forward. */
  lemma HandledDueFrom(c: Clock, q: Queue, news: seq<Entry>, t: Timer, n: int)
    requires DueFrom(q, t, n) && t.repeat && !Among(news, t)
    ensures DueFrom(Handled(c, q, news), t, n)
  {
    var r := Handled(c, q, news);
    var i :| 0 <= i < |q.timers| && q.timers[i].timer == t;
    DueOrExpired(c, q, q.timers[i]);
    if q.timers[i] in DueNow(c, q) {
      var x := RepeaterQueuedAgain(c, q, news, q.timers[i]);
      AmongMember(r.timers, x);
    } else {
      StaysQueued(c, q, news, q.timers[i]);
      AmongMember(r.timers, q.timers[i]);
    }
    forall x | x in r.timers && x.timer == t ensures x.when >= n { HandledNotBefore(c, q, news, x, n); }
  }

  lemma HandledNotBefore(c: Clock, q: Queue, news: seq<Entry>, x: Entry, n: int)
    requires x in Handled(c, q, news).timers && !Among(news, x.timer) && DueFrom(q, x.timer, n)
    ensures x.when >= n
  {
    HandledMember(c, q, news, x);
    DueOrExpired(c, q, x);
    if x in news { AmongMember(news, x); }
    if AgainOf(DueNow(c, q), x, Read(c, q).clock, Handled(c, q, news).clock) {
      var i :| 0 <= i < |DueNow(c, q)| && Again(DueNow(c, q)[i], x, Read(c, q).clock, Handled(c, q, news).clock);
      DueOrExpired(c, q, DueNow(c, q)[i]);
    }
  }

  /** Once it has fired, it is not due for an interval. */
  lemma FiredDueFrom(c: Clock, q: Queue, news: seq<Entry>, e: Entry)
    requires TimersDiffer(q.timers) && e in DueNow(c, q) && e.timer.repeat && !Among(news, e.timer)
    ensures DueFrom(Handled(c, q, news), e.timer, Read(c, q).clock + e.timer.interval)
  {
    var r := Handled(c, q, news);
    var y := RepeaterQueuedAgain(c, q, news, e);
    AmongMember(r.timers, y);
    forall x | x in r.timers && x.timer == e.timer ensures x.when >= Read(c, q).clock + e.timer.interval {
      HandledMember(c, q, news, x);
      FiredOnce(c, q, e, x);
      if x in news { AmongMember(news, x); }
    }
  }

  // ----- timers are queued once each -----

  /** Timers of `es` are different and not in the queue. */
  ghost predicate Fresh(q: Queue, es: seq<Entry>) {
    TimersDiffer(es) && forall i :: 0 <= i < |es| ==> !Among(q.timers, es[i].timer)
  }

  lemma AmongSnoc(es: seq<Entry>, t: Timer)
    requires es != []
    ensures Among(es, t) <==> Among(es[..|es| - 1], t) || es[|es| - 1].timer == t
  {
  }

  lemma {:induction false} AddedAmong(c: Clock, q: Queue, es: seq<Entry>, t: Timer)
    ensures Among(AddedAll(c, q, es).timers, t) <==> Among(q.timers, t) || Among(es, t)
  {
    if es != [] {
      var front, e := es[..|es| - 1], es[|es| - 1];
      AddedAmong(c, q, front, t);
      InsertEntryAmong(AddedAll(c, q, front).timers, e, t);
      AmongSnoc(es, t);
    }
  }

  lemma {:induction false} AddedDiffer(c: Clock, q: Queue, es: seq<Entry>)
    requires TimersDiffer(q.timers) && Fresh(q, es)
    ensures TimersDiffer(AddedAll(c, q, es).timers)
  {
    if es != [] {
      var front, e := es[..|es| - 1], es[|es| - 1];
      AddedDiffer(c, q, front);
      AddedAmong(c, q, front, e.timer);
      InsertEntryDiffer(AddedAll(c, q, front).timers, e);
    }
  }

  lemma SettledAmong(c: Clock, q: Queue, e: Entry, t: Timer)
    ensures Among(Settled(c, q, e).timers, t) <==> Among(q.timers, t) || (e.timer == t && t.repeat)
  {
    if e.timer.repeat {
      InsertEntryAmong(q.timers, Entry(Read(c, q).clock + e.timer.interval, e.timer), t);
    }
  }

  lemma {:induction false} SettledAllAmong(c: Clock, q: Queue, es: seq<Entry>, t: Timer)
    ensures Among(SettledAll(c, q, es).timers, t) <==> Among(q.timers, t) || (Among(es, t) && t.repeat)
  {
    if es != [] {
      var front, e := es[..|es| - 1], es[|es| - 1];
      SettledAllAmong(c, q, front, t);
      SettledAmong(c, SettledAll(c, q, front), e, t);
      AmongSnoc(es, t);
    }
  }

  lemma SettledDiffer(c: Clock, q: Queue, e: Entry)
    requires TimersDiffer(q.timers) && !Among(q.timers, e.timer)
    ensures TimersDiffer(Settled(c, q, e).timers)
  {
    if e.timer.repeat { InsertEntryDiffer(q.timers, Entry(Read(c, q).clock + e.timer.interval, e.timer)); }
  }

  lemma {:induction false} SettledAllDiffer(c: Clock, q: Queue, es: seq<Entry>)
    requires TimersDiffer(q.timers) && Fresh(q, es)
    ensures TimersDiffer(SettledAll(c, q, es).timers)
  {
    if es != [] {
      var front, e := es[..|es| - 1], es[|es| - 1];
      SettledAllDiffer(c, q, front);
      SettledAllAmong(c, q, front, e.timer);
      SettledDiffer(c, SettledAll(c, q, front), e);
    }
  }

  lemma AmongSplit(s: seq<Entry>, k: nat, t: Timer)
    requires k <= |s|
    ensures Among(s, t) <==> Among(s[..k], t) || Among(s[k..], t)
  {
    var due, rest := s[..k], s[k..];
    if i :| 0 <= i < |s| && s[i].timer == t {
      if i < k { assert due[i].timer == t; } else { assert rest[i - k].timer == t; }
    }
    if i :| 0 <= i < |due| && due[i].timer == t { assert s[i].timer == t; }
    if i :| 0 <= i < |rest| && rest[i].timer == t { assert s[k + i].timer == t; }
  }

  lemma DifferSplit(s: seq<Entry>, k: nat, i: nat)
    requires k <= |s| && i < k && TimersDiffer(s)
    ensures !Among(s[k..], s[i].timer)
  {
    forall j | 0 <= j < |s[k..]| ensures s[k..][j].timer != s[i].timer { assert s[k..][j] == s[k + j]; }
  }

  lemma SplitAmong(c: Clock, q: Queue, t: Timer)
    ensures Among(q.timers, t) <==> Among(DueNow(c, q), t) || Among(Expired(c, q).timers, t)
  {
    AmongSplit(q.timers, Due(q.timers, Read(c, q).clock), t);
  }

  lemma HandledAmong(c: Clock, q: Queue, news: seq<Entry>, t: Timer)
    ensures Among(Handled(c, q, news).timers, t) ==> Among(q.timers, t) || Among(news, t)
    ensures Among(q.timers, t) && t.repeat ==> Among(Handled(c, q, news).timers, t)
  {
    SplitAmong(c, q, t);
    AddedAmong(c, Expired(c, q), news, t);
    SettledAllAmong(c, AddedAll(c, Expired(c, q), news), DueNow(c, q), t);
  }

  lemma TailDiffer(s: seq<Entry>, k: nat)
    requires k <= |s| && TimersDiffer(s)
    ensures TimersDiffer(s[..k]) && TimersDiffer(s[k..])
  {
    var rest := s[k..];
    assert forall i :: 0 <= i < |rest| ==> rest[i] == s[k + i];
  }

  lemma SplitDiffer(c: Clock, q: Queue)
    requires TimersDiffer(q.timers)
    ensures TimersDiffer(Expired(c, q).timers) && Fresh(Expired(c, q), DueNow(c, q))
  {
    var k := Due(q.timers, Read(c, q).clock);
    TailDiffer(q.timers, k);
    forall i | 0 <= i < k ensures !Among(q.timers[k..], q.timers[..k][i].timer) { DifferSplit(q.timers, k, i); }
  }

  lemma HandledDiffer(c: Clock, q: Queue, news: seq<Entry>)
    requires TimersDiffer(q.timers) && Fresh(q, news)
    ensures TimersDiffer(Handled(c, q, news).timers)
  {
    var r, due := Expired(c, q), DueNow(c, q);
    SplitDiffer(c, q);
    if due != [] {
      forall i | 0 <= i < |news| ensures !Among(r.timers, news[i].timer) { SplitAmong(c, q, news[i].timer); }
      AddedDiffer(c, r, news);
      forall i | 0 <= i < |due| ensures !Among(AddedAll(c, r, news).timers, due[i].timer) {
        AmongMember(due, due[i]);
        SplitAmong(c, q, due[i].timer);
        AddedAmong(c, r, news, due[i].timer);
      }
      SettledAllDiffer(c, AddedAll(c, r, news), due);
    }
  }

  // ----- passes -----

  /** The timers a pass adds are different and none is queued. */
  ghost predicate FreshPass(q: Queue, p: Pass) { Fresh(q, p.before + p.news + p.later) }

  lemma FreshParts(q: Queue, p: Pass)
    requires FreshPass(q, p)
    ensures Fresh(q, p.before) && Fresh(q, p.news) && Fresh(q, p.later)
    ensures forall i :: 0 <= i < |p.news| ==> !Among(p.before, p.news[i].timer)
    ensures forall i :: 0 <= i < |p.later| ==> !Among(p.before, p.later[i].timer) && !Among(p.news, p.later[i].timer)
  {
    var all := p.before + p.news + p.later;
    var m, n := |p.before|, |p.before| + |p.news|;
    assert forall i :: 0 <= i < m ==> all[i] == p.before[i];
    assert forall i :: 0 <= i < |p.news| ==> all[m + i] == p.news[i];
    assert forall i :: 0 <= i < |p.later| ==> all[n + i] == p.later[i];
  }

  lemma CalledDiffer(c: Clock, q: Queue, p: Pass)
    requires TimersDiffer(q.timers) && FreshPass(q, p)
    ensures TimersDiffer(Called(c, q, p).timers) && Fresh(Called(c, q, p), p.news)
  {
    FreshParts(q, p);
    AddedDiffer(c, Read(c, q), p.before);
    forall i | 0 <= i < |p.news| ensures !Among(Called(c, q, p).timers, p.news[i].timer) {
      AddedAmong(c, Read(c, q), p.before, p.news[i].timer);
    }
  }

  lemma PassedAmong(c: Clock, q: Queue, p: Pass, t: Timer)
    ensures Among(Passed(c, q, p).timers, t) ==> Among(q.timers, t) || Among(p.before, t) || Among(p.news, t)
  {
    AddedAmong(c, Read(c, q), p.before, t);
    HandledAmong(c, Called(c, q, p), p.news, t);
  }

  lemma EndedDiffer(c: Clock, q: Queue, p: Pass)
    requires TimersDiffer(q.timers) && FreshPass(q, p)
    ensures TimersDiffer(Ended(c, q, p).timers)
  {
    FreshParts(q, p);
    CalledDiffer(c, q, p);
    HandledDiffer(c, Called(c, q, p), p.news);
    forall i | 0 <= i < |p.later| ensures !Among(Passed(c, q, p).timers, p.later[i].timer) {
      PassedAmong(c, q, p, p.later[i].timer);
    }
    AddedDiffer(c, Passed(c, q, p), p.later);
  }

  lemma QueuedNotAdded(q: Queue, p: Pass, t: Timer)
    requires FreshPass(q, p) && Among(q.timers, t)
    ensures !Among(p.before, t) && !Among(p.news, t) && !Among(p.later, t)
  {
    FreshParts(q, p);
  }

  /** The reading of the clock by which the handler of a pass judges what is due. */
  function FireTime(c: Clock, q: Queue, p: Pass): int { Read(c, Called(c, q, p)).clock }

  /** A pass does not bring a repeater forward ... */
  lemma EndedDueFrom(c: Clock, q: Queue, p: Pass, t: Timer, n: int)
    requires DueFrom(q, t, n) && t.repeat && FreshPass(q, p)
    ensures DueFrom(Called(c, q, p), t, n) && DueFrom(Ended(c, q, p), t, n)
  {
    QueuedNotAdded(q, p, t);
    AddedDueFrom(c, Read(c, q), p.before, t, n);
    HandledDueFrom(c, Called(c, q, p), p.news, t, n);
    AddedDueFrom(c, Passed(c, q, p), p.later, t, n);
  }

  /** ... and after one that fires it, it is not due for an interval. */
  lemma FiredInDueFrom(c: Clock, q: Queue, p: Pass, e: Entry)
    requires TimersDiffer(q.timers) && FreshPass(q, p) && e in FiredIn(c, q, p) && e.timer.repeat
    ensures DueFrom(Ended(c, q, p), e.timer, FireTime(c, q, p) + e.timer.interval)
  {
    FreshParts(q, p);
    CalledDiffer(c, q, p);
    DueOrExpired(c, Called(c, q, p), e);
    AmongMember(Called(c, q, p).timers, e);
    AddedAmong(c, Read(c, q), p.before, e.timer);
    assert !Among(p.news, e.timer) && !Among(p.later, e.timer);
    FiredDueFrom(c, Called(c, q, p), p.news, e);
    AddedDueFrom(c, Passed(c, q, p), p.later, e.timer, FireTime(c, q, p) + e.timer.interval);
  }

  // ----- runs -----

  /** The queues that a sequence of passes goes through, each adding timers that are not queued then. */
  ghost predicate LinkAt(c: Clock, ps: seq<Pass>, qs: seq<Queue>, i: nat) {
    i < |ps| && i + 1 < |qs| && qs[i + 1] == Ended(c, qs[i], ps[i]) && FreshPass(qs[i], ps[i])
  }

  ghost predicate Trace(c: Clock, start: int, ps: seq<Pass>, qs: seq<Queue>) {
    && |qs| == |ps| + 1 && qs[0] == NewQueue(start)
    && forall i {:trigger LinkAt(c, ps, qs, i)} :: 0 <= i < |ps| ==> LinkAt(c, ps, qs, i)
  }

  /** They are those of TimerRuns. */
  lemma {:induction false} TraceIsRun(c: Clock, start: int, ps: seq<Pass>, qs: seq<Queue>, i: nat)
    requires Trace(c, start, ps, qs) && i <= |ps|
    ensures qs[i] == After(c, start, ps[..i])
  {
    if i > 0 {
      TraceIsRun(c, start, ps, qs, i - 1);
      RunNext(c, start, ps, i - 1);
      assert LinkAt(c, ps, qs, i - 1);
    }
  }

  lemma RunNext(c: Clock, start: int, ps: seq<Pass>, i: nat)
    requires i < |ps|
    ensures After(c, start, ps[..i + 1]) == Ended(c, After(c, start, ps[..i]), ps[i])
  {
    assert ps[..i + 1] == ps[..i] + [ps[i]];
    OnePass(c, start, ps[..i], ps[i]);
  }

  lemma {:induction false} RunDiffers(c: Clock, start: int, ps: seq<Pass>, qs: seq<Queue>, i: nat)
    requires Trace(c, start, ps, qs) && i <= |ps|
    ensures TimersDiffer(qs[i].timers)
  {
    if i > 0 {
      RunDiffers(c, start, ps, qs, i - 1);
      assert LinkAt(c, ps, qs, i - 1);
      LinkDiffers(c, ps, qs, i - 1);
    }
  }

  lemma LinkDiffers(c: Clock, ps: seq<Pass>, qs: seq<Queue>, i: nat)
    requires LinkAt(c, ps, qs, i) && TimersDiffer(qs[i].timers)
    ensures TimersDiffer(qs[i + 1].timers)
  {
    EndedDiffer(c, qs[i], ps[i]);
  }

  lemma {:induction false} RunDueFrom(c: Clock, start: int, ps: seq<Pass>, qs: seq<Queue>, i: nat, j: nat,
                                      t: Timer, n: int)
    requires Trace(c, start, ps, qs) && i <= j <= |ps| && DueFrom(qs[i], t, n) && t.repeat
    ensures DueFrom(qs[j], t, n)
    decreases j
  {
    if i < j {
      RunDueFrom(c, start, ps, qs, i, j - 1, t, n);
      assert LinkAt(c, ps, qs, j - 1);
      EndedDueFrom(c, qs[j - 1], ps[j - 1], t, n);
    }
  }

  lemma FiredNotBefore(c: Clock, q: Queue, p: Pass, e: Entry, n: int)
    requires DueFrom(q, e.timer, n) && e.timer.repeat && FreshPass(q, p) && e in FiredIn(c, q, p)
    ensures n <= FireTime(c, q, p)
  {
    EndedDueFrom(c, q, p, e.timer, n);
    DueOrExpired(c, Called(c, q, p), e);
  }

  /** Two firings of a repeater are at least its interval apart. */
  lemma FiringsApart(c: Clock, start: int, ps: seq<Pass>, qs: seq<Queue>, i: nat, j: nat, e: Entry, d: Entry)
    requires Trace(c, start, ps, qs) && i < j < |ps| && e.timer == d.timer && e.timer.repeat
    requires e in FiredIn(c, qs[i], ps[i]) && d in FiredIn(c, qs[j], ps[j])
    ensures FireTime(c, qs[i], ps[i]) + e.timer.interval <= FireTime(c, qs[j], ps[j])
  {
    var n := FireTime(c, qs[i], ps[i]) + e.timer.interval;
    assert LinkAt(c, ps, qs, i) && LinkAt(c, ps, qs, j);
    RunDiffers(c, start, ps, qs, i);
    FiredInDueFrom(c, qs[i], ps[i], e);
    RunDueFrom(c, start, ps, qs, i + 1, j, e.timer, n);
    FiredNotBefore(c, qs[j], ps[j], d, n);
  }
}
