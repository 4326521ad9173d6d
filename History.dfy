/** The in-memory load history: a History store of dated entries that records
    and purges, and the HistoryManager that feeds it on every query event and
    answers date-bounded queries (HistoryManager.java, with the History
    behaviour fixed by HistoryTest.java).

    Dates are integer milliseconds on the history's clock; the clock read at
    each record and purge is an input. */
module History {
  import opened Wrappers

  type Instant = int

  /** The retention units of fixed length, from one millisecond to one week. */
  datatype TimeUnit = Millis | Seconds | Minutes | Hours | HalfDays | Days | Weeks

  /** The unit's length in milliseconds (the positive bound is a solver helper). */
  function UnitMillis(u: TimeUnit): (ms: nat)
    ensures ms >= 1
  {
    match u
    case Millis => 1
    case Seconds => 1000
    case Minutes => 60 * 1000
    case Hours => 60 * 60 * 1000
    case HalfDays => 12 * 60 * 60 * 1000
    case Days => 24 * 60 * 60 * 1000
    case Weeks => 7 * 24 * 60 * 60 * 1000
  }

  datatype HistoryEntry<T> = HistoryEntry(date: Instant, value: T)

  /** The date tests the store and the manager filter by. */
  datatype DateTest = NotBefore(cutoff: Instant) | Window(from: Instant, to: Instant)
                    | After(bound: Instant) | Before(bound: Instant)

  predicate Passes<T>(e: HistoryEntry<T>, p: DateTest) {
    match p
    case NotBefore(cutoff) => e.date >= cutoff
    case Window(from, to) => from < e.date < to
    case After(bound) => bound < e.date
    case Before(bound) => e.date < bound
  }

  /** The entries passing `p`, in their original order (a stream filter). */
  function Keep<T>(s: seq<HistoryEntry<T>>, p: DateTest): (r: seq<HistoryEntry<T>>)
    ensures |r| <= |s|
    ensures forall i :: 0 <= i < |r| ==> Passes(r[i], p)
  {
    if s == [] then []
    else Keep(s[..|s| - 1], p) + (if Passes(s[|s| - 1], p) then [s[|s| - 1]] else [])
  }

  /** `a` is `b` with some entries left out, the rest in the same order. */
  ghost predicate IsSubsequence<T>(a: seq<T>, b: seq<T>)
    decreases |b|
  {
    if a == [] then true
    else if b == [] then false
    else if a[|a| - 1] == b[|b| - 1] then IsSubsequence(a[..|a| - 1], b[..|b| - 1])
    else IsSubsequence(a, b[..|b| - 1])
  }

  ghost predicate SortedByDate<T>(s: seq<HistoryEntry<T>>) {
    forall i, j :: 0 <= i < j < |s| ==> s[i].date <= s[j].date
  }

  // ----- the filter ----------------------------------------------------------

  lemma {:induction false} KeepAppend<T>(s: seq<HistoryEntry<T>>, t: seq<HistoryEntry<T>>, p: DateTest)
    ensures Keep(s + t, p) == Keep(s, p) + Keep(t, p)
    decreases |t|
  {
    if t == [] {
      assert s + t == s;
    } else {
      var t' := t[..|t| - 1];
      assert (s + t)[..|s + t| - 1] == s + t';
      assert (s + t)[|s + t| - 1] == t[|t| - 1];
      KeepAppend(s, t', p);
    }
  }

  /** An entry is kept exactly when it is in the input and satisfies `p`. */
  lemma {:induction false} KeepMembers<T>(s: seq<HistoryEntry<T>>, p: DateTest, e: HistoryEntry<T>)
    ensures e in Keep(s, p) <==> e in s && Passes(e, p)
    decreases |s|
  {
    if s != [] {
      KeepMembers(s[..|s| - 1], p, e);
      assert s == s[..|s| - 1] + [s[|s| - 1]];
    }
  }

  lemma {:induction false} KeepIsSubsequence<T>(s: seq<HistoryEntry<T>>, p: DateTest)
    ensures IsSubsequence(Keep(s, p), s)
    decreases |s|
  {
    if s != [] {
      var s' := s[..|s| - 1];
      KeepIsSubsequence(s', p);
      if Passes(s[|s| - 1], p) {
        var r := Keep(s, p);
        assert r[..|r| - 1] == Keep(s', p);
      } else {
        assert Keep(s, p) == Keep(s', p);
      }
    }
  }

  /** Two filters that agree on every entry of `s` give the same result. */
  lemma {:induction false} KeepAgree<T>(s: seq<HistoryEntry<T>>, p: DateTest, q: DateTest)
    requires forall i :: 0 <= i < |s| ==> Passes(s[i], p) == Passes(s[i], q)
    ensures Keep(s, p) == Keep(s, q)
    decreases |s|
  {
    if s != [] {
      KeepAgree(s[..|s| - 1], p, q);
    }
  }

  // ----- purge ----------------------------------------------------------------

  function Cutoff(now: Instant, amount: int, unit: TimeUnit): Instant {
    now - amount * UnitMillis(unit)
  }

  /** The entries not older than the cutoff. */
  function Purged<T>(s: seq<HistoryEntry<T>>, cutoff: Instant): (r: seq<HistoryEntry<T>>)
    ensures forall i :: 0 <= i < |r| ==> r[i].date >= cutoff
  {
    Keep(s, NotBefore(cutoff))
  }

  /** A purge right after a record keeps the new entry, at the end, exactly when
      it is not older than the cutoff; the older entries are purged as before. */
  lemma {:induction false} PurgeAfterRecord<T>(s: seq<HistoryEntry<T>>, e: HistoryEntry<T>, cutoff: Instant)
    ensures e.date >= cutoff ==> Purged(s + [e], cutoff) == Purged(s, cutoff) + [e]
    ensures e.date < cutoff ==> Purged(s + [e], cutoff) == Purged(s, cutoff)
  {
    KeepAppend(s, [e], NotBefore(cutoff));
    assert [e][..0] == [];
  }

  lemma {:induction false} PurgedMembers<T>(s: seq<HistoryEntry<T>>, cutoff: Instant, e: HistoryEntry<T>)
    ensures e in Purged(s, cutoff) <==> e in s && e.date >= cutoff
  {
    KeepMembers(s, NotBefore(cutoff), e);
  }

  /** On a date-ordered history, purging drops exactly a prefix: the entries
      older than the cutoff. */
  lemma {:induction false} PurgeDropsPrefix<T>(s: seq<HistoryEntry<T>>, cutoff: Instant)
    requires SortedByDate(s)
    ensures var k := |s| - |Purged(s, cutoff)|;
      && Purged(s, cutoff) == s[k..]
      && forall i :: 0 <= i < k ==> s[i].date < cutoff
    decreases |s|
  {
    if s != [] {
      var s' := s[..|s| - 1];
      var last := s[|s| - 1];
      assert SortedByDate(s');
      PurgeDropsPrefix(s', cutoff);
      var p' := Purged(s', cutoff);
      var k := |s'| - |p'|;
      if last.date >= cutoff {
        assert Purged(s, cutoff) == p' + [last];
        assert s'[k..] + [last] == s[k..];
        forall i | 0 <= i < k ensures s[i].date < cutoff { assert s[i] == s'[i]; }
      } else {
        assert Purged(s, cutoff) == p';
      }
    }
  }

  // ----- date-bounded queries --------------------------------------------------

  /** The entries strictly after `from` and strictly before `to` (the ensures is a
      solver helper; LimitedToDatesMembers states the whole property). */
  function Between<T>(s: seq<HistoryEntry<T>>, from: Instant, to: Instant): (r: seq<HistoryEntry<T>>)
    ensures forall i :: 0 <= i < |r| ==> from < r[i].date < to
  {
    Keep(s, Window(from, to))
  }

  /** getHistoryLimitedToDates over a history, with the zone's earliest and
      latest representable dates standing in for a missing bound. */
  function LimitedToDates<T>(s: seq<HistoryEntry<T>>, fromDate: Option<Instant>, toDate: Option<Instant>,
                             minDate: Instant, maxDate: Instant): seq<HistoryEntry<T>>
  {
    if fromDate.None? && toDate.None? then s
    else Between(s, fromDate.GetOr(minDate), toDate.GetOr(maxDate))
  }

  /** With some bound given, the result is exactly the entries strictly inside
      the bounds, in their stored order; entries dated at a bound are left out. */
  lemma {:induction false} LimitedToDatesMembers<T>(s: seq<HistoryEntry<T>>, fromDate: Option<Instant>, toDate: Option<Instant>,
                                                    minDate: Instant, maxDate: Instant, e: HistoryEntry<T>)
    requires fromDate.Some? || toDate.Some?
    ensures var r := LimitedToDates(s, fromDate, toDate, minDate, maxDate);
      && (e in r <==> e in s && fromDate.GetOr(minDate) < e.date < toDate.GetOr(maxDate))
      && IsSubsequence(r, s)
  {
    var from, to := fromDate.GetOr(minDate), toDate.GetOr(maxDate);
    KeepMembers(s, Window(from, to), e);
    KeepIsSubsequence(s, Window(from, to));
  }

  /** When every stored date lies strictly between the zone's extremes, a
      missing bound filters nothing: only the given bound does. */
  lemma {:induction false} MissingBoundFiltersNothing<T>(s: seq<HistoryEntry<T>>, from: Instant, to: Instant,
                                                         minDate: Instant, maxDate: Instant)
    requires forall i :: 0 <= i < |s| ==> minDate < s[i].date < maxDate
    ensures LimitedToDates(s, Some(from), None, minDate, maxDate) == Keep(s, After(from))
    ensures LimitedToDates(s, None, Some(to), minDate, maxDate) == Keep(s, Before(to))
  {
    KeepAgree(s, Window(from, maxDate), After(from));
    KeepAgree(s, Window(minDate, to), Before(to));
  }

  // ----- the store and the manager ------------------------------------------------

  /** The History store: dated entries in the order they were recorded. */
  class History<T> {
    var entries: seq<HistoryEntry<T>>

    constructor ()
      ensures entries == []
    {
      entries := [];
    }

    function Get(): seq<HistoryEntry<T>>
      reads this
    {
      entries
    }

    /** Appends one entry stamped with the clock reading `now`. */
    method Record(now: Instant, value: T)
      modifies this
      ensures entries == old(entries) + [HistoryEntry(now, value)]
    {
      entries := entries + [HistoryEntry(now, value)];
    }

    /** Drops every entry older than `amount` units before `now`. */
    method Purge(now: Instant, amount: int, unit: TimeUnit)
      modifies this
      ensures entries == Purged(old(entries), Cutoff(now, amount, unit))
    {
      entries := Purged(entries, Cutoff(now, amount, unit));
    }
  }

  class HistoryManager<T> {
    const history: History<T>
    /** The configured retention: purge entries older than this many units. */
    const olderThan: int
    const unit: TimeUnit
    /** LocalDateTime.MIN and LocalDateTime.MAX in the system's default zone. */
    const minDate: Instant
    const maxDate: Instant

    constructor (olderThan: int, unit: TimeUnit, history: History<T>, minDate: Instant, maxDate: Instant)
      ensures this.history == history && this.olderThan == olderThan && this.unit == unit
      ensures this.minDate == minDate && this.maxDate == maxDate
    {
      this.history := history;
      this.olderThan := olderThan;
      this.unit := unit;
      this.minDate := minDate;
      this.maxDate := maxDate;
    }

    /** A query event: record its load, then purge with the configured
        retention. The store reads its clock once for each call: `recordNow`
        stamps the entry and `purgeNow` anchors the cutoff. */
    method OnEvent(recordNow: Instant, purgeNow: Instant, load: T)
      modifies history
      ensures history.entries == Purged(old(history.entries) + [HistoryEntry(recordNow, load)],
                                        Cutoff(purgeNow, olderThan, unit))
    {
      history.Record(recordNow, load);
      history.Purge(purgeNow, olderThan, unit);
    }

    function GetHistory(): seq<HistoryEntry<T>>
      reads this, history
    {
      history.Get()
    }

    function GetHistoryLimitedToDates(fromDate: Option<Instant>, toDate: Option<Instant>): (r: seq<HistoryEntry<T>>)
      reads this, history
      ensures fromDate.None? && toDate.None? ==> r == GetHistory()
      ensures fromDate.Some? || toDate.Some? ==>
        r == Between(GetHistory(), fromDate.GetOr(minDate), toDate.GetOr(maxDate))
      ensures |r| <= |GetHistory()|
    {
      LimitedToDates(history.Get(), fromDate, toDate, minDate, maxDate)
    }
  }

  /** Two records at increasing clock times give two entries, the first earlier. */
  method RecordTwiceScenario(t: Instant) returns (entries: seq<HistoryEntry<int>>)
    ensures |entries| == 2 && entries[0].date < entries[1].date
  {
    var h := new History<int>();
    h.Record(t, 1);
    h.Record(t + 4 * UnitMillis(Minutes), 2);
    entries := h.Get();
  }

  /** Purging one minute back, at the clock of the later record, removes the
      entry four minutes older and keeps the one stamped now. */
  method PurgeScenario(t: Instant) returns (entries: seq<HistoryEntry<int>>)
    ensures entries == [HistoryEntry(t + 4 * UnitMillis(Minutes), 2)]
  {
    var h := new History<int>();
    var now := t + 4 * UnitMillis(Minutes);
    h.Record(t, 1);
    h.Record(now, 2);
    var e1, e2 := HistoryEntry(t, 1), HistoryEntry(now, 2);
    assert h.Get() == [e1, e2];
    assert [e1, e2][..1] == [e1];
    assert Purged([e1], Cutoff(now, 1, Minutes)) == [] by {
      assert [e1][..0] == [];
    }
    h.Purge(now, 1, Minutes);
    entries := h.Get();
  }
}
