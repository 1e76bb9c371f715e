/** Timer of src/Timer.cc, and the entries by which the timer queue orders timers. */
module Timers {
  import opened Ordering

  class Timer {
    var expiration: int
    const interval: nat   // the interval in microseconds, as addTime converts it
    const repeat: bool
    const address: nat    // the pointer, by which the set orders timers of equal time

    constructor (when: int, interval: nat, repeat: bool, address: nat)
      ensures expiration == when && this.interval == interval && this.repeat == repeat && this.address == address
    {
      expiration, this.interval, this.repeat, this.address := when, interval, repeat, address;
    }

    /** restart. */
    method Restart(now: int)
      modifies this`expiration
      ensures expiration == if repeat then now + interval else 0
    {
      expiration := if repeat then now + interval else 0;
    }
  }

  /** std::pair<Timestamp, Timer*> and its order. */
  datatype Entry = Entry(when: int, timer: Timer)

  predicate Less(a: Entry, b: Entry) {
    a.when < b.when || (a.when == b.when && a.timer.address < b.timer.address)
  }

  ghost predicate Sorted(s: seq<Entry>) { Ordered(s, Less) }

  ghost predicate Among(es: seq<Entry>, t: Timer) { exists i :: 0 <= i < |es| && es[i].timer == t }

  ghost predicate TimersDiffer(es: seq<Entry>) { forall i, j :: 0 <= i < j < |es| ==> es[i].timer != es[j].timer }

  /** std::set::insert. */
  function InsertEntry(s: seq<Entry>, e: Entry): (r: seq<Entry>)
    ensures |r| == |s| + 1
    ensures r[0].when == if s == [] || e.when < s[0].when then e.when else s[0].when
  {
    Insert(Less, s, e)
  }

  lemma InsertEntrySorted(s: seq<Entry>, e: Entry)
    requires Sorted(s) && forall x :: x in s ==> x.timer.address != e.timer.address
    ensures Sorted(InsertEntry(s, e))
    ensures forall x :: x in InsertEntry(s, e) <==> x == e || x in s
  {
    InsertOrdered(Less, Less, s, e);
    forall x ensures x in InsertEntry(s, e) <==> x == e || x in s { InsertMember(Less, s, e, x); }
  }

  predicate Differ(a: Entry, b: Entry) { a.timer != b.timer }

  lemma InsertEntryDiffer(s: seq<Entry>, e: Entry)
    requires TimersDiffer(s) && !Among(s, e.timer)
    ensures TimersDiffer(InsertEntry(s, e))
  {
    forall y | y in s ensures y.timer != e.timer { var i :| 0 <= i < |s| && s[i] == y; }
    InsertOrdered(Less, Differ, s, e);
    assert Ordered(InsertEntry(s, e), Differ);
    forall i, j | 0 <= i < j < |InsertEntry(s, e)| ensures InsertEntry(s, e)[i].timer != InsertEntry(s, e)[j].timer {
      assert Differ(InsertEntry(s, e)[i], InsertEntry(s, e)[j]);
    }
  }

  lemma InsertEntryAmong(s: seq<Entry>, e: Entry, t: Timer)
    ensures Among(InsertEntry(s, e), t) <==> Among(s, t) || e.timer == t
  {
    var r := InsertEntry(s, e);
    if i :| 0 <= i < |r| && r[i].timer == t {
      InsertMember(Less, s, e, r[i]);
      if r[i] != e { var j :| 0 <= j < |s| && s[j] == r[i]; }
    }
    if Among(s, t) || e.timer == t {
      var x :| (x == e || x in s) && x.timer == t;
      InsertMember(Less, s, e, x);
      var j :| 0 <= j < |r| && r[j] == x;
    }
  }
}
