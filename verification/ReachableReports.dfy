/**
 * The reports over tables that a run can reach: a list query succeeds whatever is inserted meanwhile, and its
 * seen_last is the time of the latest event of its key exactly under the condition of the timestamp text.
 */
module ReachableReports {
  import opened Text
  import opened Events
  import opened Replication
  import opened ReplicationSafety
  import opened GroupBy
  import opened Reporting
  import opened Timestamp

  lemma {:induction false} TableGrows(s: Cluster, steps: seq<Step>, n: string)
    requires n in s.nodes
    ensures n in Run(s, steps).nodes && s.nodes[n].store.table <= Run(s, steps).nodes[n].store.table
  {
    if steps != [] {
      TableGrows(s, steps[..|steps| - 1], n);
      TablesGrow(Run(s, steps[..|steps| - 1]), steps[|steps| - 1], n);
    }
  }

  /**
   * A list query on node n whose count is taken after `steps` and whose rows are fetched after `more`: it never
   * fails, and returns as many of the groups as were counted.
   */
  method ListDuringRun(report: Report, s: Cluster, steps: seq<Step>, more: seq<Step>, n: string, groups: seq<Group>)
    returns (result: Fetched)
    requires Init(s) && n in s.nodes && n in Run(s, steps + more).nodes
    requires IsAnswer(report, Run(s, steps + more).nodes[n].store.table, groups)
    ensures n in Run(s, steps).nodes && result.Entries?
    ensures |result.list| == CountDistinct(report, Run(s, steps).nodes[n].store.table) <= |groups|
    ensures forall i :: 0 <= i < |result.list| ==> Copyable(groups[i]) && result.list[i] == EntryOf(groups[i])
  {
    InvRun(s, steps);
    RunConcat(s, steps, more);
    TableGrows(Run(s, steps), more, n);
    ReportedColumnsAreSet(s, steps + more, n);
    var table, later := Run(s, steps).nodes[n].store.table, Run(s, steps + more).nodes[n].store.table;
    var inserted := later[|table|..];
    assert later == table + inserted;
    result := SelectList(report, table, inserted, groups);
  }

  // ----- seen_last as a time -----

  /** Each row's timestamp is the text of a reading with a four-digit year. */
  predicate AreStamped(table: seq<Row>, read: Row -> Reading) {
    forall r :: r in table ==>
      IsReading(read(r)) && HasFourDigitYear(read(r).tm) && r.eventTimestamp == Some(Stamp(read(r)))
  }

  /** The text of a reading that is not later is not greater. */
  predicate KeepsOrder(a: Reading, b: Reading) {
    a == b || a.tm != b.tm || Comparable(a.nsec, b.nsec)
  }

  lemma {:induction false} LexTotal(xs: seq<nat>, ys: seq<nat>)
    requires |xs| == |ys|
    ensures xs == ys || LexLess(xs, ys) || LexLess(ys, xs)
  {
    if xs != [] {
      LexTotal(xs[1..], ys[1..]);
      assert xs == [xs[0]] + xs[1..] && ys == [ys[0]] + ys[1..];
    }
  }

  lemma EarlierIsTotal(a: Reading, b: Reading)
    ensures a == b || Earlier(a, b) || Earlier(b, a)
  {
    LexTotal(Values(a.tm), Values(b.tm));
    if a.tm.year == b.tm.year && a.tm != b.tm {
      ValuesDecide(a.tm, b.tm);
    }
  }

  /** With `b` not earlier than `a`, text order says so exactly if the order is kept. */
  lemma AtMostExactly(a: Reading, b: Reading)
    requires IsReading(a) && IsReading(b) && HasFourDigitYear(a.tm) && HasFourDigitYear(b.tm) && !Earlier(b, a)
    ensures AtMost(Stamp(a), Stamp(b)) <==> KeepsOrder(a, b)
  {
    EarlierIsTotal(a, b);
    if a != b {
      OrderIsKeptExactly(a, b);
      if Stamp(a) == Stamp(b) {
        StampIsInjective(a, b);
      }
    }
  }

  predicate IsLatestRow(report: Report, table: seq<Row>, read: Row -> Reading, key: string, latest: Row) {
    latest in table && IsRowFor(report, latest, key) &&
    forall r :: r in table && IsRowFor(report, r, key) ==> !Earlier(read(latest), read(r))
  }

  /** A report's seen_last is the time of the latest event of its key exactly if the fractions of that second allow it. */
  lemma SeenLastIsLatestExactly(
    report: Report, table: seq<Row>, groups: seq<Group>, list: seq<Entry>, i: nat, read: Row -> Reading, latest: Row)
    requires Reported(table) && IsAnswer(report, table, groups) && IsListOf(groups, list) && i < |list|
    requires AreStamped(table, read) && IsLatestRow(report, table, read, list[i].key, latest)
    ensures list[i].seenLast == Stamp(read(latest)) <==>
            forall r :: r in table && IsRowFor(report, r, list[i].key) ==> KeepsOrder(read(r), read(latest))
  {
    var e := list[i];
    EntryHasRow(report, table, groups, list, i);
    EntryIsLatest(report, table, groups, list, i);
    forall r | r in table && IsRowFor(report, r, e.key)
      ensures AtMost(Stamp(read(r)), Stamp(read(latest))) <==> KeepsOrder(read(r), read(latest))
      ensures AtMost(Stamp(read(r)), e.seenLast)
    {
      AtMostExactly(read(r), read(latest));
    }
    var shown :| shown in table && IsRowFor(report, shown, e.key) && shown.eventTimestamp == Some(e.seenLast);
    LessIsStrictAndTotal(e.seenLast, Stamp(read(latest)));
  }

  /** Two probes from one address, five and ten milliseconds into a second: seen_last is the first one's time. */
  lemma SeenLastCanBeEarlier(a: Row, b: Row, tm: Tm, groups: seq<Group>, list: seq<Entry>)
    requires IsTm(tm) && HasFourDigitYear(tm) && a.sourceIp.Some? && a.sourceIp == b.sourceIp
    requires a.eventTimestamp == Some(Stamp(Reading(tm, 5_000_000)))
    requires b.eventTimestamp == Some(Stamp(Reading(tm, 10_000_000)))
    requires IsAnswer(IpAddresses, [a, b], groups) && IsListOf(groups, list)
    ensures |list| == 1 && list[0].seenLast == Stamp(Reading(tm, 5_000_000))
    ensures Earlier(Reading(tm, 5_000_000), Reading(tm, 10_000_000))
  {
    MaxCanBeEarlier(tm);
    OneEntry(a, b, groups, list);
    var table := [a, b];
    EntryHasRow(IpAddresses, table, groups, list, 0);
    EntryIsLatest(IpAddresses, table, groups, list, 0);
    var shown :| shown in table && IsRowFor(IpAddresses, shown, list[0].key) && shown.eventTimestamp == Some(list[0].seenLast);
    assert a in table && IsRowFor(IpAddresses, a, list[0].key);
    LessIsStrictAndTotal(a.eventTimestamp.value, b.eventTimestamp.value);
  }

  lemma OneEntry(a: Row, b: Row, groups: seq<Group>, list: seq<Entry>)
    requires a.sourceIp.Some? && a.sourceIp == b.sourceIp && a.eventTimestamp.Some? && b.eventTimestamp.Some?
    requires IsAnswer(IpAddresses, [a, b], groups) && IsListOf(groups, list)
    ensures |list| == 1 && list[0].key == a.sourceIp.value
  {
    var table := [a, b];
    assert a in table;
    RowHasEntry(IpAddresses, table, groups, list, a);
    var e :| e in list && IsRowFor(IpAddresses, a, e.key);
    forall i | 0 <= i < |list|
      ensures list[i].key == a.sourceIp.value
    {
      EntryHasRow(IpAddresses, table, groups, list, i);
    }
    EntriesAreOrdered(groups, list);
    if |list| > 1 {
      FirstTwoDiffer(list);
      assert false;
    }
  }

  lemma FirstTwoDiffer(list: seq<Entry>)
    requires |list| > 1
    requires forall i, j :: 0 <= i < j < |list| ==> list[i].key != list[j].key && AtMost(list[j].seenLast, list[i].seenLast)
    ensures list[0].key != list[1].key
  {
  }
}
