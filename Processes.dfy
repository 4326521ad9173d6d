/** The process table of DefaultProcessesMetrics.kt: a snapshot map from PID
    to process that each tick replaces, a per-PID CPU load map updated
    against the previous snapshot just before that, and sorted, limited
    listings.

    The OS process list, the per-process CPU load between two snapshots and
    the seven process comparators are inputs. */
module Processes {
  import opened Wrappers

  type Pid = int

  /** An OS process; the fields listed are the ones the comparators may look at. */
  datatype OSProcess = OSProcess(processID: Pid, parentProcessID: Pid, name: string,
                                 residentSetSize: int, startTime: int)

  /** A process as reported, with its CPU percent. */
  datatype Process = Process(os: OSProcess, cpuPercent: real)

  datatype ProcessSort = Cpu | Memory | Oldest | Newest | PidOrder | ParentPid | Name

  /** "a may come before b" for each of the seven sort orders. */
  datatype Comparators = Comparators(
    cpuLoad: (OSProcess, OSProcess) -> bool, memory: (OSProcess, OSProcess) -> bool,
    oldest: (OSProcess, OSProcess) -> bool, newest: (OSProcess, OSProcess) -> bool,
    pid: (OSProcess, OSProcess) -> bool, parentPid: (OSProcess, OSProcess) -> bool,
    name: (OSProcess, OSProcess) -> bool)

  function ComparatorFor(sortBy: ProcessSort, cs: Comparators): (OSProcess, OSProcess) -> bool {
    match sortBy
    case Cpu => cs.cpuLoad
    case Memory => cs.memory
    case Oldest => cs.oldest
    case Newest => cs.newest
    case PidOrder => cs.pid
    case ParentPid => cs.parentPid
    case Name => cs.name
  }

  /** What a comparator has to be for sorting to make sense. */
  ghost predicate TotalPreorder(le: (OSProcess, OSProcess) -> bool) {
    && (forall a, b :: le(a, b) || le(b, a))
    && (forall a, b, c :: le(a, b) && le(b, c) ==> le(a, c))
  }

  ghost predicate Sorted(s: seq<OSProcess>, le: (OSProcess, OSProcess) -> bool) {
    forall i, j :: 0 <= i < j < |s| ==> le(s[i], s[j])
  }

  // ----- sorting and limiting ------------------------------------------------------

  /** Stable insertion sort of `a` by `le`, in place. */
  method SortInPlace(a: array<OSProcess>, le: (OSProcess, OSProcess) -> bool)
    requires TotalPreorder(le)
    modifies a
    ensures Sorted(a[..], le)
    ensures multiset(a[..]) == old(multiset(a[..]))
  {
    if a.Length == 0 { return; }
    var i := 1;
    while i < a.Length
      invariant 1 <= i <= a.Length
      invariant Sorted(a[..i], le)
      invariant multiset(a[..]) == old(multiset(a[..]))
    {
      InsertAt(a, i, le);
      i := i + 1;
    }
    assert a[..a.Length] == a[..];
  }

  /** Insertion invariant: s[..i+1] is in order apart from the element at `j`, */
  ghost predicate SortedExcept(s: seq<OSProcess>, j: int, i: int, le: (OSProcess, OSProcess) -> bool)
    requires i < |s|
  {
    forall k, m :: 0 <= k < m <= i && k != j && m != j ==> le(s[k], s[m])
  }

  /** and the element at `j` is at most everything after it up to `i`. */
  ghost predicate BelowTail(s: seq<OSProcess>, j: int, i: int, le: (OSProcess, OSProcess) -> bool)
    requires 0 <= j <= i < |s|
  {
    forall m :: j < m <= i ==> le(s[j], s[m])
  }

  /** Solver helper: swapping an out-of-order element one place left keeps the invariant. */
  lemma SwapStep(s: seq<OSProcess>, t: seq<OSProcess>, j: int, i: int, le: (OSProcess, OSProcess) -> bool)
    requires TotalPreorder(le)
    requires 0 < j <= i < |s| && SortedExcept(s, j, i, le) && BelowTail(s, j, i, le)
    requires !le(s[j - 1], s[j])
    requires t == s[j - 1 := s[j]][j := s[j - 1]]
    ensures SortedExcept(t, j - 1, i, le) && BelowTail(t, j - 1, i, le)
  {
    assert le(s[j], s[j - 1]);
  }

  /** Solver helper: once the element at `j` is in place, the prefix is sorted. */
  lemma InsertedSorted(s: seq<OSProcess>, j: int, i: int, le: (OSProcess, OSProcess) -> bool)
    requires TotalPreorder(le)
    requires 0 <= j <= i < |s| && SortedExcept(s, j, i, le) && BelowTail(s, j, i, le)
    requires j == 0 || le(s[j - 1], s[j])
    ensures Sorted(s[..i + 1], le)
  {
    forall k, m | 0 <= k < m <= i ensures le(s[k], s[m]) {
      if m == j && k < j - 1 {
        assert le(s[k], s[j - 1]);
      }
    }
  }

  /** Moves a[i] left into the sorted prefix a[..i]. */
  method InsertAt(a: array<OSProcess>, i: nat, le: (OSProcess, OSProcess) -> bool)
    requires TotalPreorder(le)
    requires i < a.Length && Sorted(a[..i], le)
    modifies a
    ensures Sorted(a[..i + 1], le)
    ensures forall k :: i < k < a.Length ==> a[k] == old(a[k])
    ensures multiset(a[..]) == old(multiset(a[..]))
  {
    var j := i;
    assert SortedExcept(a[..], j, i, le) by {
      forall k, m | 0 <= k < m <= i && k != j && m != j ensures le(a[..][k], a[..][m]) {
        assert a[..i][k] == a[k] && a[..i][m] == a[m];
      }
    }
    while j > 0 && !le(a[j - 1], a[j])
      invariant 0 <= j <= i
      invariant SortedExcept(a[..], j, i, le) && BelowTail(a[..], j, i, le)
      invariant forall k :: i < k < a.Length ==> a[k] == old(a[k])
      invariant multiset(a[..]) == old(multiset(a[..]))
    {
      ghost var s := a[..];
      a[j - 1], a[j] := a[j], a[j - 1];
      SwapStep(s, a[..], j, i, le);
      j := j - 1;
    }
    InsertedSorted(a[..], j, i, le);
  }

  /** Kotlin's `take(limit)` for a positive limit; everything otherwise. */
  function Limit<T>(s: seq<T>, limit: int): (r: seq<T>)
    ensures limit <= 0 ==> r == s
    ensures limit > 0 ==> |r| == (if limit < |s| then limit else |s|) && r == s[..|r|]
  {
    if limit <= 0 || limit >= |s| then s else s[..limit]
  }

  /** A limited sorted list is sorted, and holds nothing the list did not. */
  lemma {:induction false} LimitOfSorted(s: seq<OSProcess>, le: (OSProcess, OSProcess) -> bool, limit: int)
    requires Sorted(s, le)
    ensures Sorted(Limit(s, limit), le)
    ensures multiset(Limit(s, limit)) <= multiset(s)
  {
    var r := Limit(s, limit);
    assert s == r + s[|r|..];
  }

  method SortAndLimit(processes: array<OSProcess>, sortBy: ProcessSort, cs: Comparators, limit: int)
    returns (r: seq<OSProcess>)
    requires TotalPreorder(ComparatorFor(sortBy, cs))
    modifies processes
    ensures Sorted(processes[..], ComparatorFor(sortBy, cs))
    ensures multiset(processes[..]) == old(multiset(processes[..]))
    ensures r == Limit(processes[..], limit)
  {
    SortInPlace(processes, ComparatorFor(sortBy, cs));
    if limit <= 0 {
      r := processes[..];
    } else {
      r := Limit(processes[..], limit);
    }
  }

  // ----- the snapshot and load maps, as functions of the process list ---------------

  /** The snapshot map after putting every process of `ps` under its PID. */
  function SnapshotOf(ps: seq<OSProcess>): map<Pid, OSProcess> {
    if ps == [] then map[]
    else SnapshotOf(ps[..|ps| - 1])[ps[|ps| - 1].processID := ps[|ps| - 1]]
  }

  /** The map's iteration order: each PID where it was first put. */
  function OrderOf(ps: seq<OSProcess>): seq<Pid> {
    if ps == [] then []
    else
      var o := OrderOf(ps[..|ps| - 1]);
      if ps[|ps| - 1].processID in o then o else o + [ps[|ps| - 1].processID]
  }

  ghost predicate Distinct(o: seq<Pid>) {
    forall i, j :: 0 <= i < j < |o| ==> o[i] != o[j]
  }

  /** The keys are exactly the PIDs of the list, each mapped to a process with that PID. */
  lemma {:induction false} SnapshotKeys(ps: seq<OSProcess>)
    ensures SnapshotOf(ps).Keys == set p | p in ps :: p.processID
    ensures forall pid :: pid in SnapshotOf(ps) ==> SnapshotOf(ps)[pid].processID == pid
    decreases |ps|
  {
    if ps != [] {
      var pre := ps[..|ps| - 1];
      SnapshotKeys(pre);
      assert ps == pre + [ps[|ps| - 1]];
      assert (set p | p in ps :: p.processID) == (set p | p in pre :: p.processID) + {ps[|ps| - 1].processID};
    }
  }

  /** A PID is mapped to the last process of the list that has it. */
  lemma {:induction false} SnapshotLastWins(ps: seq<OSProcess>, k: nat)
    requires k < |ps| && forall m :: k < m < |ps| ==> ps[m].processID != ps[k].processID
    ensures ps[k].processID in SnapshotOf(ps) && SnapshotOf(ps)[ps[k].processID] == ps[k]
    decreases |ps|
  {
    if k < |ps| - 1 {
      var pre := ps[..|ps| - 1];
      assert pre[k] == ps[k];
      assert forall m :: k < m < |pre| ==> pre[m].processID != pre[k].processID by {
        forall m | k < m < |pre| ensures pre[m].processID != pre[k].processID { assert pre[m] == ps[m]; }
      }
      SnapshotLastWins(pre, k);
    }
  }

  /** The iteration order lists every key once. */
  lemma {:induction false} OrderOfSpec(ps: seq<OSProcess>)
    ensures Distinct(OrderOf(ps)) && (set pid | pid in OrderOf(ps)) == SnapshotOf(ps).Keys
    decreases |ps|
  {
    if ps != [] {
      var pre := ps[..|ps| - 1];
      OrderOfSpec(pre);
      var o := OrderOf(pre);
      var pid := ps[|ps| - 1].processID;
      if pid !in o {
        assert (set q | q in o + [pid]) == (set q | q in o) + {pid};
      }
    }
  }

  /** The load map after updateCurrentLoad over `ps` against the snapshot `prior`. */
  function LoadsAfter(load: map<Pid, real>, prior: map<Pid, OSProcess>, ps: seq<OSProcess>,
                      cpuBetweenTicks: (OSProcess, Option<OSProcess>) -> real, cpuCount: int): map<Pid, real>
    requires cpuCount > 0
  {
    if ps == [] then load
    else
      var p := ps[|ps| - 1];
      var previous := if p.processID in prior then Some(prior[p.processID]) else None;
      LoadsAfter(load, prior, ps[..|ps| - 1], cpuBetweenTicks, cpuCount)[p.processID :=
        100.0 * cpuBetweenTicks(p, previous) / cpuCount as real]
  }

  /** updateCurrentLoad only writes the PIDs of the list. */
  lemma {:induction false} LoadsAfterFrame(load: map<Pid, real>, prior: map<Pid, OSProcess>, ps: seq<OSProcess>,
                                           cpuBetweenTicks: (OSProcess, Option<OSProcess>) -> real, cpuCount: int)
    requires cpuCount > 0
    ensures var l := LoadsAfter(load, prior, ps, cpuBetweenTicks, cpuCount);
      && l.Keys == load.Keys + (set p | p in ps :: p.processID)
      && forall pid :: pid in load && (forall p :: p in ps ==> p.processID != pid) ==> l[pid] == load[pid]
    decreases |ps|
  {
    if ps != [] {
      var pre := ps[..|ps| - 1];
      LoadsAfterFrame(load, prior, pre, cpuBetweenTicks, cpuCount);
      assert ps == pre + [ps[|ps| - 1]];
    }
  }

  /** Each listed PID gets the load of its last process in the list, measured
      against that PID's process in the prior snapshot. */
  lemma {:induction false} LoadsAfterValue(load: map<Pid, real>, prior: map<Pid, OSProcess>, ps: seq<OSProcess>,
                                           cpuBetweenTicks: (OSProcess, Option<OSProcess>) -> real, cpuCount: int, k: nat)
    requires cpuCount > 0
    requires k < |ps| && forall m :: k < m < |ps| ==> ps[m].processID != ps[k].processID
    ensures var pid := ps[k].processID;
      var previous := if pid in prior then Some(prior[pid]) else None;
      && pid in LoadsAfter(load, prior, ps, cpuBetweenTicks, cpuCount)
      && LoadsAfter(load, prior, ps, cpuBetweenTicks, cpuCount)[pid] == 100.0 * cpuBetweenTicks(ps[k], previous) / cpuCount as real
    decreases |ps|
  {
    if k < |ps| - 1 {
      var pre := ps[..|ps| - 1];
      assert pre[k] == ps[k];
      assert forall m :: k < m < |pre| ==> pre[m].processID != pre[k].processID by {
        forall m | k < m < |pre| ensures pre[m].processID != pre[k].processID { assert pre[m] == ps[m]; }
      }
      LoadsAfterValue(load, prior, pre, cpuBetweenTicks, cpuCount, k);
    }
  }

  /** Solver helper: a sequence without repeats has as many distinct elements as entries. */
  lemma {:induction false} DistinctCard(o: seq<Pid>)
    requires Distinct(o)
    ensures |set pid | pid in o| == |o|
    decreases |o|
  {
    if o != [] {
      var pre := o[..|o| - 1];
      DistinctCard(pre);
      assert o == pre + [o[|o| - 1]];
      assert (set pid | pid in o) == (set pid | pid in pre) + {o[|o| - 1]};
    }
  }

  /** Solver helper: whatever a sub-multiset of the snapshot's values lists is a
      snapshot value stored under its own PID. */
  lemma {:induction false} SnapshotValuesListed(m: map<Pid, OSProcess>, order: seq<Pid>, listed: seq<OSProcess>,
                                                list: seq<OSProcess>)
    requires forall pid :: pid in m ==> m[pid].processID == pid
    requires |listed| == |order| && forall i :: 0 <= i < |order| ==> order[i] in m && listed[i] == m[order[i]]
    requires multiset(list) <= multiset(listed)
    ensures forall i :: 0 <= i < |list| ==> list[i].processID in m && list[i] == m[list[i].processID]
  {
    forall i | 0 <= i < |list|
      ensures list[i].processID in m && list[i] == m[list[i].processID]
    {
      assert list[i] in multiset(list);
      assert list[i] in multiset(listed);
      var j :| 0 <= j < |listed| && listed[j] == list[i];
      assert listed[j] == m[order[j]] && m[order[j]].processID == order[j];
    }
  }

  /** Solver helper: a value at two positions is counted at least twice. */
  lemma {:induction false} TwoPositionsCountTwice(s: seq<OSProcess>, i: int, j: int)
    requires 0 <= i < j < |s|
    ensures s[i] == s[j] ==> multiset(s)[s[i]] >= 2
  {
    assert s == s[..j] + s[j..];
    assert s[..j][i] == s[i];
    assert s[j..][0] == s[j];
  }

  /** Solver helper: a list whose PIDs are pairwise distinct holds each process at most once. */
  lemma {:induction false} DistinctPidsCountOnce(s: seq<OSProcess>, x: OSProcess)
    requires forall i, j :: 0 <= i < j < |s| ==> s[i].processID != s[j].processID
    ensures multiset(s)[x] <= 1
    decreases |s|
  {
    if s != [] {
      var pre := s[..|s| - 1];
      DistinctPidsCountOnce(pre, x);
      assert s == pre + [s[|s| - 1]];
      if s[|s| - 1] == x {
        forall k | 0 <= k < |pre| ensures pre[k] != x {
          assert pre[k] == s[k];
        }
        assert multiset(pre)[x] == 0;
      }
    }
  }

  /** Solver helper: what a sub-multiset of a list with distinct PIDs lists, it lists at most once. */
  lemma {:induction false} SubMultisetHasNoRepeats(listed: seq<OSProcess>, list: seq<OSProcess>)
    requires forall i, j :: 0 <= i < j < |listed| ==> listed[i].processID != listed[j].processID
    requires multiset(list) <= multiset(listed)
    ensures forall i, j :: 0 <= i < j < |list| ==> list[i] != list[j]
  {
    forall i, j | 0 <= i < j < |list| ensures list[i] != list[j] {
      TwoPositionsCountTwice(list, i, j);
      DistinctPidsCountOnce(listed, list[i]);
    }
  }

  /** Solver helper: whatever a sub-multiset of the snapshot's values (listed in
      key order) lists is a value stored under its own PID, and no PID twice. */
  lemma {:induction false} SnapshotSubListDistinct(m: map<Pid, OSProcess>, order: seq<Pid>, listed: seq<OSProcess>,
                                                   list: seq<OSProcess>)
    requires Distinct(order)
    requires forall pid :: pid in m ==> m[pid].processID == pid
    requires |listed| == |order| && forall i :: 0 <= i < |order| ==> order[i] in m && listed[i] == m[order[i]]
    requires multiset(list) <= multiset(listed)
    ensures forall i :: 0 <= i < |list| ==> list[i].processID in m && list[i] == m[list[i].processID]
    ensures forall i, j :: 0 <= i < j < |list| ==> list[i].processID != list[j].processID
  {
    forall i, j | 0 <= i < j < |listed| ensures listed[i].processID != listed[j].processID {
      assert listed[i].processID == order[i] && listed[j].processID == order[j];
    }
    SubMultisetHasNoRepeats(listed, list);
    SnapshotValuesListed(m, order, listed, list);
  }

  /** The OS processes of a listing, in order. */
  function OsOf(r: seq<Process>): (o: seq<OSProcess>)
    ensures |o| == |r| && forall i :: 0 <= i < |r| ==> o[i] == r[i].os
  {
    seq(|r|, i requires 0 <= i < |r| => r[i].os)
  }

  // ----- the metrics object ----------------------------------------------------------

  class DefaultProcessesMetrics {
    var priorSnapshotMap: map<Pid, OSProcess>
    /** The insertion order of priorSnapshotMap's keys (it is a linked hash map). */
    var snapshotOrder: seq<Pid>
    var currentLoad: map<Pid, real>

    ghost predicate Valid()
      reads this
    {
      && Distinct(snapshotOrder)
      && (set pid | pid in snapshotOrder) == priorSnapshotMap.Keys
      && forall pid :: pid in priorSnapshotMap ==> priorSnapshotMap[pid].processID == pid
    }

    /** Seeds the snapshot from the initial process list; no loads yet. */
    constructor (initial: seq<OSProcess>)
      ensures Valid()
      ensures priorSnapshotMap == SnapshotOf(initial) && snapshotOrder == OrderOf(initial)
      ensures currentLoad == map[]
    {
      priorSnapshotMap := map[];
      snapshotOrder := [];
      currentLoad := map[];
      new;
      UpdateMap(initial);
    }

    method UpdateMap(processes: seq<OSProcess>)
      modifies this
      ensures Valid()
      ensures priorSnapshotMap == SnapshotOf(processes) && snapshotOrder == OrderOf(processes)
      ensures currentLoad == old(currentLoad)
    {
      priorSnapshotMap := map[];
      snapshotOrder := [];
      for i := 0 to |processes|
        invariant priorSnapshotMap == SnapshotOf(processes[..i])
        invariant snapshotOrder == OrderOf(processes[..i])
        invariant currentLoad == old(currentLoad)
      {
        var process := processes[i];
        assert processes[..i + 1][..i] == processes[..i];
        if process.processID !in snapshotOrder {
          snapshotOrder := snapshotOrder + [process.processID];
        }
        priorSnapshotMap := priorSnapshotMap[process.processID := process];
      }
      assert processes[..|processes|] == processes;
      SnapshotKeys(processes);
      OrderOfSpec(processes);
    }

    method UpdateCurrentLoad(processes: seq<OSProcess>, cpuBetweenTicks: (OSProcess, Option<OSProcess>) -> real,
                             cpuCount: int)
      requires cpuCount > 0
      modifies this
      ensures currentLoad == LoadsAfter(old(currentLoad), priorSnapshotMap, processes, cpuBetweenTicks, cpuCount)
      ensures priorSnapshotMap == old(priorSnapshotMap) && snapshotOrder == old(snapshotOrder)
    {
      for i := 0 to |processes|
        invariant currentLoad == LoadsAfter(old(currentLoad), priorSnapshotMap, processes[..i], cpuBetweenTicks, cpuCount)
        invariant priorSnapshotMap == old(priorSnapshotMap) && snapshotOrder == old(snapshotOrder)
      {
        var process := processes[i];
        assert processes[..i + 1][..i] == processes[..i];
        var previous := if process.processID in priorSnapshotMap then Some(priorSnapshotMap[process.processID]) else None;
        currentLoad := currentLoad[process.processID := 100.0 * cpuBetweenTicks(process, previous) / cpuCount as real];
      }
      assert processes[..|processes|] == processes;
    }

    /** A tick: loads are measured against the old snapshot, then the
        snapshot is replaced by the new list. */
    method OnTick(processes: seq<OSProcess>, cpuBetweenTicks: (OSProcess, Option<OSProcess>) -> real, cpuCount: int)
      requires cpuCount > 0
      modifies this
      ensures Valid()
      ensures currentLoad == LoadsAfter(old(currentLoad), old(priorSnapshotMap), processes, cpuBetweenTicks, cpuCount)
      ensures priorSnapshotMap == SnapshotOf(processes) && snapshotOrder == OrderOf(processes)
    {
      UpdateCurrentLoad(processes, cpuBetweenTicks, cpuCount);
      UpdateMap(processes);
    }

    /** The recorded load of `pid`, 0.0 when there is none. */
    function LoadOf(pid: Pid): real
      reads this
    {
      if pid in currentLoad then currentLoad[pid] else 0.0
    }

    /** The snapshot's values in key order (`priorSnapshotMap.values`). */
    function SnapshotValues(): (v: seq<OSProcess>)
      reads this
      ensures |v| == |snapshotOrder|
    {
      seq(|snapshotOrder|, i requires 0 <= i < |snapshotOrder| reads this =>
        if snapshotOrder[i] in priorSnapshotMap then priorSnapshotMap[snapshotOrder[i]] else OSProcess(0, 0, "", 0, 0))
    }

    function GetProcessByPid(pid: Pid): (r: Option<Process>)
      reads this
      ensures r.None? <==> pid !in priorSnapshotMap
      ensures r.Some? ==> r.value.os == priorSnapshotMap[pid]
      ensures r.Some? ==> r.value.cpuPercent == LoadOf(pid)
    {
      if pid in priorSnapshotMap then Some(Process(priorSnapshotMap[pid], LoadOf(pid))) else None
    }

    /** The snapshot's processes, sorted by `sortBy` and limited, with their loads. */
    method ProcessesInfo(sortBy: ProcessSort, cs: Comparators, limit: int) returns (r: seq<Process>)
      requires Valid()
      requires TotalPreorder(ComparatorFor(sortBy, cs))
      ensures |r| == (if limit <= 0 || limit >= |priorSnapshotMap| then |priorSnapshotMap| else limit)
      ensures Sorted(OsOf(r), ComparatorFor(sortBy, cs))
      ensures forall i :: 0 <= i < |r| ==> r[i].os.processID in priorSnapshotMap
                                           && r[i].os == priorSnapshotMap[r[i].os.processID]
                                           && r[i].cpuPercent == LoadOf(r[i].os.processID)
      ensures forall i, j :: 0 <= i < j < |r| ==> r[i].os.processID != r[j].os.processID
      ensures exists s :: multiset(s) == multiset(SnapshotValues()) && Sorted(s, ComparatorFor(sortBy, cs))
                          && OsOf(r) == Limit(s, limit)
    {
      var values := new OSProcess[|snapshotOrder|](i requires 0 <= i < |snapshotOrder| reads this =>
        if snapshotOrder[i] in priorSnapshotMap then priorSnapshotMap[snapshotOrder[i]] else OSProcess(0, 0, "", 0, 0));
      ghost var listed := values[..];
      assert listed == SnapshotValues();
      assert forall i :: 0 <= i < |listed| ==> listed[i] == priorSnapshotMap[snapshotOrder[i]];
      var list := SortAndLimit(values, sortBy, cs, limit);
      DistinctCard(snapshotOrder);
      LimitOfSorted(values[..], ComparatorFor(sortBy, cs), limit);
      SnapshotSubListDistinct(priorSnapshotMap, snapshotOrder, listed, list);
      r := seq(|list|, i requires 0 <= i < |list| reads this => Process(list[i], LoadOf(list[i].processID)));
      assert OsOf(r) == list;
      assert multiset(values[..]) == multiset(SnapshotValues()) && Sorted(values[..], ComparatorFor(sortBy, cs))
             && OsOf(r) == Limit(values[..], limit);
    }
  }
}
