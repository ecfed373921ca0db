/**
 * The two list queries and the two single lookups over the honey table. A list query first asks for
 * the number of distinct keys, then runs the grouped query and steps it exactly that many times; there
 * is no transaction, so rows can be inserted in between.
 */
module Reporting {
  import opened Text
  import opened Events
  import opened GroupBy
  import opened Decimal
  import opened PhoneNumbers

  datatype Report = IpAddresses | CalledNumbers

  predicate Kept(report: Report, r: Row) {
    report.CalledNumbers? ==> IsListed(r.calledNumber)
  }

  function KeyOf(report: Report, r: Row): Option<string> {
    if report.IpAddresses? then r.sourceIp else r.calledNumber
  }

  /** The WHERE clause and the projection. */
  function Selected(report: Report, table: seq<Row>): seq<KeyedRow> {
    if table == [] then []
    else Selected(report, table[..|table| - 1]) +
         if Kept(report, table[|table| - 1])
         then [KeyedRow(KeyOf(report, table[|table| - 1]), table[|table| - 1].eventTimestamp)] else []
  }

  lemma {:induction false} SelectedGrows(report: Report, table: seq<Row>, more: seq<Row>)
    ensures Selected(report, table + more) == Selected(report, table) + Selected(report, more)
  {
    if more == [] {
      assert table + more == table;
    } else {
      SelectedGrows(report, table, more[..|more| - 1]);
      assert (table + more)[..|table + more| - 1] == table + more[..|more| - 1];
    }
  }

  lemma {:induction false} SelectedRows(report: Report, table: seq<Row>, k: KeyedRow)
    ensures k in Selected(report, table) <==>
            exists r :: r in table && Kept(report, r) && k == KeyedRow(KeyOf(report, r), r.eventTimestamp)
  {
    if table != [] {
      SelectedRows(report, table[..|table| - 1], k);
      assert forall r :: r in table <==> r in table[..|table| - 1] || r == table[|table| - 1];
    }
  }

  /** Without a WHERE clause every row is seen. */
  lemma {:induction false} AllSelected(table: seq<Row>)
    ensures |Selected(IpAddresses, table)| == |table|
  {
    if table != [] {
      AllSelected(table[..|table| - 1]);
    }
  }

  /** The columns that are copied are not NULL; every reachable table satisfies this. */
  predicate Reported(table: seq<Row>) {
    forall r :: r in table ==> r.sourceIp.Some? && r.eventTimestamp.Some?
  }

  // ----- stepping -----

  /** A prepared statement: a fixed result, read row by row; `broken` lists the steps that fail. */
  class Statement {
    const rows: seq<Group>
    const broken: set<nat>
    var next: nat

    constructor (rows: seq<Group>, broken: set<nat>)
      ensures this.rows == rows && this.broken == broken && next == 0
    {
      this.rows, this.broken, this.next := rows, broken, 0;
    }

    method Step() returns (row: Option<Group>)
      modifies this
      ensures row == (if old(next) in broken || old(next) >= |rows| then None else Some(rows[old(next)]))
      ensures next == old(next) + 1
    {
      row := if next in broken || next >= |rows| then None else Some(rows[next]);
      next := next + 1;
    }
  }

  /** One element of the returned array, as text. */
  datatype Entry = Entry(key: string, seenLast: string, seenCount: string)

  /** Success, a failing step, or an assertion on a NULL column. */
  datatype Fetched = Entries(list: seq<Entry>) | StepFailed | AssertionFailed

  predicate Copyable(g: Group) {
    g.key.Some? && g.seenLast.Some?
  }

  function EntryOf(g: Group): Entry
    requires Copyable(g)
  {
    Entry(g.key.value, g.seenLast.value, Print(g.seenTotal))
  }

  /** The step with this number returns a row. */
  predicate StepGives(rows: seq<Group>, broken: set<nat>, i: nat) {
    i < |rows| && i !in broken
  }

  /**
   * The fetch loop: with no failing step it succeeds exactly if there are enough groups and the first
   * `rowCount` of them have no NULL column, and then returns exactly these.
   */
  method Fetch(rowCount: nat, rows: seq<Group>, broken: set<nat>) returns (result: Fetched)
    ensures result.Entries? <==>
            forall i :: 0 <= i < rowCount ==> StepGives(rows, broken, i) && Copyable(rows[i])
    ensures result.Entries? ==> |result.list| == rowCount <= |rows|
    ensures result.Entries? ==> forall i :: 0 <= i < rowCount ==> result.list[i] == EntryOf(rows[i])
    ensures result.StepFailed? ==> exists i :: 0 <= i < rowCount && !StepGives(rows, broken, i)
    ensures result.AssertionFailed? ==> exists i :: 0 <= i < rowCount && StepGives(rows, broken, i) && !Copyable(rows[i])
  {
    var statement := new Statement(rows, broken);
    var list := new Entry[rowCount](_ => Entry("", "", ""));
    var rowNum := 0;
    while rowNum < rowCount
      invariant rowNum <= rowCount && rowNum <= |rows| && statement.next == rowNum
      invariant statement.rows == rows && statement.broken == broken && list.Length == rowCount
      invariant forall i :: 0 <= i < rowNum ==> StepGives(rows, broken, i) && Copyable(rows[i]) && list[i] == EntryOf(rows[i])
    {
      var row := statement.Step();
      if row == None {
        assert !StepGives(rows, broken, rowNum);
        return StepFailed;
      }
      assert row.value == rows[rowNum];
      if !Copyable(row.value) {
        return AssertionFailed;
      }
      list[rowNum] := EntryOf(row.value);
      rowNum := rowNum + 1;
    }
    return Entries(list[..]);
  }

  // ----- the list queries -----

  /** A result of the grouped query over the table. */
  predicate IsAnswer(report: Report, table: seq<Row>, groups: seq<Group>) {
    IsGrouping(Selected(report, table), groups)
  }

  lemma AnswersAreCopyable(report: Report, table: seq<Row>, groups: seq<Group>)
    requires IsAnswer(report, table, groups) && Reported(table)
    ensures forall g :: g in groups ==> Copyable(g)
    ensures |groups| == DistinctCount(Selected(report, table))
  {
    var rows := Selected(report, table);
    forall r | r in rows
      ensures r.key.Some? && r.stamp.Some?
    {
      SelectedRows(report, table, r);
    }
    forall g | g in groups
      ensures Copyable(g)
    {
      assert IsGroupOf(rows, g);
      var r :| r in rows && r.key == g.key;
    }
    GroupCount(rows, groups);
  }

  /** Enough groups for the loop, however many rows were inserted after the count. */
  lemma NeverRunsOut(report: Report, table: seq<Row>, inserted: seq<Row>, groups: seq<Group>)
    requires IsAnswer(report, table + inserted, groups)
    ensures DistinctCount(Selected(report, table)) <= |groups|
  {
    SelectedGrows(report, table, inserted);
    DistinctCountGrows(Selected(report, table), Selected(report, inserted));
    GroupCount(Selected(report, table + inserted), groups);
  }

  /**
   * `db_select_bad_actors` and `db_select_called_numbers`: the count is taken on `table`, then rows are
   * inserted, then the grouped query answers `groups`. The result is the first groups of that answer,
   * as many as were counted; all of them if nothing was inserted.
   */
  method SelectList(report: Report, table: seq<Row>, inserted: seq<Row>, groups: seq<Group>) returns (result: Fetched)
    requires Reported(table + inserted) && IsAnswer(report, table + inserted, groups)
    ensures DistinctCount(Selected(report, table)) <= |groups|
    ensures result.Entries? && |result.list| == DistinctCount(Selected(report, table))
    ensures forall i :: 0 <= i < |result.list| ==> Copyable(groups[i]) && result.list[i] == EntryOf(groups[i])
    ensures inserted == [] ==> |result.list| == |groups|
  {
    NeverRunsOut(report, table, inserted, groups);
    AnswersAreCopyable(report, table + inserted, groups);
    if inserted == [] {
      assert table + inserted == table;
    }
    result := Fetch(CountDistinct(report, table), groups, {});
  }

  function CountDistinct(report: Report, table: seq<Row>): nat {
    DistinctCount(Selected(report, table))
  }

  // ----- what the list means -----

  predicate IsRowFor(report: Report, r: Row, key: string) {
    Kept(report, r) && KeyOf(report, r) == Some(key)
  }

  predicate IsListOf(groups: seq<Group>, list: seq<Entry>) {
    |list| == |groups| && forall i :: 0 <= i < |list| ==> Copyable(groups[i]) && list[i] == EntryOf(groups[i])
  }

  predicate HasEntry(report: Report, list: seq<Entry>, r: Row) {
    exists e :: e in list && IsRowFor(report, r, e.key)
  }

  lemma RowHasEntry(report: Report, table: seq<Row>, groups: seq<Group>, list: seq<Entry>, r: Row)
    requires IsAnswer(report, table, groups) && IsListOf(groups, list) && r in table && Kept(report, r)
    ensures HasEntry(report, list, r)
  {
    SelectedRows(report, table, KeyedRow(KeyOf(report, r), r.eventTimestamp));
    assert Lists(groups, KeyOf(report, r));
    var g :| g in groups && g.key == KeyOf(report, r);
    var i :| 0 <= i < |groups| && groups[i] == g;
    assert list[i] in list;
  }

  /** The entry shows a row of its key with the timestamp it states. */
  predicate ShowsRow(report: Report, table: seq<Row>, e: Entry) {
    exists r :: r in table && IsRowFor(report, r, e.key) && r.eventTimestamp == Some(e.seenLast)
  }

  /** No row of the entry's key has a later timestamp. */
  predicate ShowsLatest(report: Report, table: seq<Row>, e: Entry) {
    forall r :: r in table && IsRowFor(report, r, e.key) ==>
      r.eventTimestamp.Some? && AtMost(r.eventTimestamp.value, e.seenLast)
  }

  lemma EntryHasRow(report: Report, table: seq<Row>, groups: seq<Group>, list: seq<Entry>, i: nat)
    requires IsAnswer(report, table, groups) && IsListOf(groups, list) && i < |list|
    ensures ShowsRow(report, table, list[i])
  {
    assert IsGroupOf(Selected(report, table), groups[i]);
    SelectedRows(report, table, KeyedRow(groups[i].key, groups[i].seenLast));
  }

  lemma EntryIsLatest(report: Report, table: seq<Row>, groups: seq<Group>, list: seq<Entry>, i: nat)
    requires Reported(table) && IsAnswer(report, table, groups) && IsListOf(groups, list) && i < |list|
    ensures ShowsLatest(report, table, list[i])
  {
    assert IsGroupOf(Selected(report, table), groups[i]);
    forall r | r in table && IsRowFor(report, r, list[i].key)
      ensures r.eventTimestamp.Some? && AtMost(r.eventTimestamp.value, list[i].seenLast)
    {
      SelectedRows(report, table, KeyedRow(KeyOf(report, r), r.eventTimestamp));
    }
  }

  /** With no interleaving: one entry per key, each with the latest timestamp of its rows, latest first. */
  lemma ListIsGroupBy(report: Report, table: seq<Row>, groups: seq<Group>, list: seq<Entry>)
    requires Reported(table) && IsAnswer(report, table, groups) && IsListOf(groups, list)
    ensures forall i, j :: 0 <= i < j < |list| ==> list[i].key != list[j].key && AtMost(list[j].seenLast, list[i].seenLast)
    ensures forall r :: r in table && Kept(report, r) ==> HasEntry(report, list, r)
    ensures forall i :: 0 <= i < |list| ==> ShowsRow(report, table, list[i]) && ShowsLatest(report, table, list[i])
  {
    EntriesAreOrdered(groups, list);
    forall r | r in table && Kept(report, r)
      ensures HasEntry(report, list, r)
    {
      RowHasEntry(report, table, groups, list, r);
    }
    forall i | 0 <= i < |list|
      ensures ShowsRow(report, table, list[i]) && ShowsLatest(report, table, list[i])
    {
      EntryHasRow(report, table, groups, list, i);
      EntryIsLatest(report, table, groups, list, i);
    }
  }

  lemma EntriesAreOrdered(groups: seq<Group>, list: seq<Entry>)
    requires IsListOf(groups, list) && Sorted(groups) && DistinctKeys(groups)
    ensures forall i, j :: 0 <= i < j < |list| ==> list[i].key != list[j].key && AtMost(list[j].seenLast, list[i].seenLast)
  {
    forall i, j | 0 <= i < j < |list|
      ensures list[i].key != list[j].key && AtMost(list[j].seenLast, list[i].seenLast)
    {
      assert groups[i].key != groups[j].key && Descending(groups[i].seenLast, groups[j].seenLast);
    }
  }

  /** The printed seen_count values of the IP list add up to the number of rows. */
  lemma SeenCountsAddUp(table: seq<Row>, groups: seq<Group>, list: seq<Entry>)
    requires Reported(table) && IsAnswer(IpAddresses, table, groups) && IsListOf(groups, list)
    ensures SeenTotal(list) == |table|
  {
    forall r | r in Selected(IpAddresses, table)
      ensures r.key.Some?
    {
      SelectedRows(IpAddresses, table, r);
    }
    TotalsAddUp(Selected(IpAddresses, table), groups);
    AllSelected(table);
    PrintedTotals(groups, list);
  }

  /** The counts as a client reads them. */
  function SeenTotal(list: seq<Entry>): nat {
    if list == [] then 0
    else (if AllDigits(list[0].seenCount) then Value(list[0].seenCount) else 0) + SeenTotal(list[1..])
  }

  lemma {:induction false} PrintedTotals(groups: seq<Group>, list: seq<Entry>)
    requires IsListOf(groups, list)
    ensures SeenTotal(list) == TotalSeen(groups)
  {
    if list != [] {
      ValueOfPrint(groups[0].seenTotal);
      PrintedTotals(groups[1..], list[1..]);
    }
  }

  // ----- the two lists, in terms of the columns -----

  /** How many rows have this source_ip. */
  function AddressRows(table: seq<Row>, ip: string): nat {
    if table == [] then 0
    else AddressRows(table[..|table| - 1], ip) + if table[|table| - 1].sourceIp == Some(ip) then 1 else 0
  }

  /** How many rows have this called_number. */
  function NumberRows(table: seq<Row>, number: string): nat {
    if table == [] then 0
    else NumberRows(table[..|table| - 1], number) + if table[|table| - 1].calledNumber == Some(number) then 1 else 0
  }

  lemma {:induction false} AddressCount(table: seq<Row>, ip: string)
    ensures CountKey(Selected(IpAddresses, table), Some(ip)) == AddressRows(table, ip)
  {
    if table != [] {
      var before := Selected(IpAddresses, table[..|table| - 1]);
      AddressCount(table[..|table| - 1], ip);
      assert Selected(IpAddresses, table)[..|before|] == before;
    }
  }

  lemma {:induction false} NumberCount(table: seq<Row>, number: string)
    requires IsListed(Some(number))
    ensures CountKey(Selected(CalledNumbers, table), Some(number)) == NumberRows(table, number)
  {
    if table != [] {
      var before := Selected(CalledNumbers, table[..|table| - 1]);
      NumberCount(table[..|table| - 1], number);
      if Kept(CalledNumbers, table[|table| - 1]) {
        assert Selected(CalledNumbers, table)[..|before|] == before;
      } else {
        assert Selected(CalledNumbers, table) == before;
      }
    }
  }

  lemma EntryCounts(report: Report, table: seq<Row>, groups: seq<Group>, list: seq<Entry>, i: nat)
    requires IsAnswer(report, table, groups) && IsListOf(groups, list) && i < |list|
    ensures AllDigits(list[i].seenCount)
    ensures Value(list[i].seenCount) == CountKey(Selected(report, table), Some(list[i].key))
  {
    assert IsGroupOf(Selected(report, table), groups[i]);
    ValueOfPrint(groups[i].seenTotal);
  }

  /** The address list without inserts: an entry for each source_ip, with its number of rows and its greatest timestamp. */
  lemma AddressListSpelledOut(table: seq<Row>, groups: seq<Group>, list: seq<Entry>)
    requires Reported(table) && IsAnswer(IpAddresses, table, groups) && IsListOf(groups, list)
    ensures forall r :: r in table ==> exists e :: e in list && r.sourceIp == Some(e.key)
    ensures forall i :: 0 <= i < |list| ==> AddressEntry(table, list[i])
    ensures |list| == |set r | r in table :: r.sourceIp|
  {
    forall r | r in table
      ensures exists e :: e in list && r.sourceIp == Some(e.key)
    {
      RowHasEntry(IpAddresses, table, groups, list, r);
    }
    forall i | 0 <= i < |list|
      ensures AddressEntry(table, list[i])
    {
      AddressEntrySpelledOut(table, groups, list, i);
    }
    AnswersAreCopyable(IpAddresses, table, groups);
    AddressesCounted(table);
  }

  /** An entry of the address list: the address and the timestamp of one row, and the number of rows of that address. */
  predicate AddressEntry(table: seq<Row>, e: Entry) {
    && (exists r :: r in table && r.sourceIp == Some(e.key) && r.eventTimestamp == Some(e.seenLast))
    && AllDigits(e.seenCount) && Value(e.seenCount) == AddressRows(table, e.key)
  }

  lemma AddressEntrySpelledOut(table: seq<Row>, groups: seq<Group>, list: seq<Entry>, i: nat)
    requires IsAnswer(IpAddresses, table, groups) && IsListOf(groups, list) && i < |list|
    ensures AddressEntry(table, list[i])
  {
    EntryHasRow(IpAddresses, table, groups, list, i);
    EntryCounts(IpAddresses, table, groups, list, i);
    AddressCount(table, list[i].key);
  }

  lemma AddressesCounted(table: seq<Row>)
    requires Reported(table)
    ensures DistinctCount(Selected(IpAddresses, table)) == |set r | r in table :: r.sourceIp|
  {
    var rows := Selected(IpAddresses, table);
    var keys, ips := set k | k in rows && k.key.Some? :: k.key, set r | r in table :: r.sourceIp;
    forall r | r in table
      ensures r.sourceIp in keys
    {
      SelectedRows(IpAddresses, table, KeyedRow(r.sourceIp, r.eventTimestamp));
      assert KeyedRow(r.sourceIp, r.eventTimestamp) in rows;
    }
    forall k | k in rows
      ensures k.key in ips
    {
      SelectedRows(IpAddresses, table, k);
    }
    assert keys == ips;
  }

  /** The number list without inserts: an entry for each called_number that passes the filter. */
  lemma NumberListSpelledOut(table: seq<Row>, groups: seq<Group>, list: seq<Entry>)
    requires Reported(table) && IsAnswer(CalledNumbers, table, groups) && IsListOf(groups, list)
    ensures forall r :: r in table && IsListed(r.calledNumber) ==> exists e :: e in list && r.calledNumber == Some(e.key)
    ensures forall i :: 0 <= i < |list| ==> NumberEntry(table, list[i])
    ensures |list| == |set r | r in table && IsListed(r.calledNumber) :: r.calledNumber|
  {
    forall r | r in table && IsListed(r.calledNumber)
      ensures exists e :: e in list && r.calledNumber == Some(e.key)
    {
      RowHasEntry(CalledNumbers, table, groups, list, r);
    }
    forall i | 0 <= i < |list|
      ensures NumberEntry(table, list[i])
    {
      NumberEntrySpelledOut(table, groups, list, i);
    }
    AnswersAreCopyable(CalledNumbers, table, groups);
    NumbersCounted(table);
  }

  /** The same of the number list, with the filter. */
  predicate NumberEntry(table: seq<Row>, e: Entry) {
    && IsListed(Some(e.key))
    && (exists r :: r in table && r.calledNumber == Some(e.key) && r.eventTimestamp == Some(e.seenLast))
    && AllDigits(e.seenCount) && Value(e.seenCount) == NumberRows(table, e.key)
  }

  lemma NumberEntrySpelledOut(table: seq<Row>, groups: seq<Group>, list: seq<Entry>, i: nat)
    requires IsAnswer(CalledNumbers, table, groups) && IsListOf(groups, list) && i < |list|
    ensures NumberEntry(table, list[i])
  {
    EntryHasRow(CalledNumbers, table, groups, list, i);
    EntryCounts(CalledNumbers, table, groups, list, i);
    NumberCount(table, list[i].key);
  }

  lemma NumbersCounted(table: seq<Row>)
    ensures DistinctCount(Selected(CalledNumbers, table)) ==
            |set r | r in table && IsListed(r.calledNumber) :: r.calledNumber|
  {
    var rows := Selected(CalledNumbers, table);
    var keys := set k | k in rows && k.key.Some? :: k.key;
    var numbers := set r | r in table && IsListed(r.calledNumber) :: r.calledNumber;
    forall r | r in table && IsListed(r.calledNumber)
      ensures r.calledNumber in keys
    {
      SelectedRows(CalledNumbers, table, KeyedRow(r.calledNumber, r.eventTimestamp));
      assert KeyedRow(r.calledNumber, r.eventTimestamp) in rows;
    }
    forall k | k in rows
      ensures k.key in numbers
    {
      SelectedRows(CalledNumbers, table, k);
    }
    assert keys == numbers;
  }

  // ----- single lookups -----

  /** The rows that SELECT DISTINCT(column) ... WHERE column = text can answer with. */
  ghost predicate IsMatch(report: Report, table: seq<Row>, text: string, rows: seq<string>) {
    && (forall i, j :: 0 <= i < |rows| && 0 <= j < |rows| && rows[i] == rows[j] ==> i == j)
    && (forall i :: 0 <= i < |rows| ==> rows[i] == text)
    && (rows != [] <==> Found(report, table, text))
  }

  predicate Found(report: Report, table: seq<Row>, text: string) {
    exists r :: r in table && KeyOf(report, r) == Some(text)
  }

  /** Which of the database calls of a lookup fail. */
  datatype LookupIo = LookupIo(open: bool, prepare: bool, bind: bool, step: bool, finalize: bool, close: bool)

  predicate NoneFails(io: LookupIo) {
    !io.open && !io.prepare && !io.bind && !io.step && !io.finalize && !io.close
  }

  /**
   * `db_select_bad_actor_by_ip` and `db_select_phone_number`: one step of the statement, whose answer is `rows`.
   * If no call fails, the text is found exactly if some row has it in the column of that lookup.
   */
  method LookUp(report: Report, table: seq<Row>, text: string, rows: seq<string>, fails: LookupIo)
    returns (found: Option<string>)
    requires IsMatch(report, table, text, rows)
    ensures report.IpAddresses? ==>
              (found == Some(text) <==> NoneFails(fails) && exists r :: r in table && r.sourceIp == Some(text))
    ensures report.CalledNumbers? ==>
              (found == Some(text) <==> NoneFails(fails) && exists r :: r in table && r.calledNumber == Some(text))
    ensures found.Some? ==> found == Some(text)
  {
    if fails.open || fails.prepare || fails.bind {
      return None;
    }
    if fails.step || rows == [] {
      return None;
    }
    var column := rows[0];
    if fails.finalize || fails.close {
      return None;
    }
    return Some(column);
  }

  /** The statement has an answer, and only one. */
  lemma MatchIsDetermined(report: Report, table: seq<Row>, text: string, rows: seq<string>)
    ensures IsMatch(report, table, text, rows) <==> rows == if Found(report, table, text) then [text] else []
  {
    if IsMatch(report, table, text, rows) && rows != [] {
      var last := |rows| - 1;
      assert rows[last] == rows[0];
    }
  }

  /** An address can be looked up exactly if the full address list shows it. */
  lemma AddressIsFoundExactlyIfListed(table: seq<Row>, groups: seq<Group>, list: seq<Entry>, ip: string)
    requires Reported(table) && IsAnswer(IpAddresses, table, groups) && IsListOf(groups, list)
    ensures (exists r :: r in table && r.sourceIp == Some(ip)) <==> exists e :: e in list && e.key == ip
  {
    AddressListSpelledOut(table, groups, list);
  }

  /** Whatever a list shows can be looked up, then and in every later table. */
  lemma ListedIsFound(report: Report, table: seq<Row>, inserted: seq<Row>, groups: seq<Group>, list: seq<Entry>, e: Entry)
    requires Reported(table) && IsAnswer(report, table, groups)
    requires |list| <= |groups|
    requires forall i :: 0 <= i < |list| ==> Copyable(groups[i]) && list[i] == EntryOf(groups[i])
    requires e in list
    ensures report.IpAddresses? ==> exists r :: r in table + inserted && r.sourceIp == Some(e.key)
    ensures report.CalledNumbers? ==>
              IsListed(Some(e.key)) && exists r :: r in table + inserted && r.calledNumber == Some(e.key)
  {
    var i :| 0 <= i < |list| && list[i] == e;
    assert IsGroupOf(Selected(report, table), groups[i]);
    SelectedRows(report, table, KeyedRow(groups[i].key, groups[i].seenLast));
    var r :| r in table && Kept(report, r) && KeyOf(report, r) == groups[i].key;
    assert r in table + inserted;
  }

  /** A number that can be looked up is listed exactly if it passes the filter. */
  lemma FoundButNotListed(table: seq<Row>, groups: seq<Group>, number: string)
    requires IsAnswer(CalledNumbers, table, groups) && exists r :: r in table && r.calledNumber == Some(number)
    ensures Lists(groups, Some(number)) <==> IsListed(Some(number))
  {
    var r :| r in table && r.calledNumber == Some(number);
    SelectedRows(CalledNumbers, table, KeyedRow(Some(number), r.eventTimestamp));
    if Lists(groups, Some(number)) {
      var g :| g in groups && g.key == Some(number);
      SelectedRows(CalledNumbers, table, KeyedRow(g.key, g.seenLast));
      assert IsGroupOf(Selected(CalledNumbers, table), g);
      var k :| k in Selected(CalledNumbers, table) && k.key == g.key;
      SelectedRows(CalledNumbers, table, k);
    }
  }

  /** A number with a superfluous leading zero, stored once, is never listed. */
  lemma LeadingZeroIsNeverListed(r: Row, number: string, groups: seq<Group>)
    requires AllDigits(number) && |number| > 1 && number[0] == '0'
    requires r.calledNumber == Some(number) && IsAnswer(CalledNumbers, [r], groups)
    ensures (exists x :: x in [r] && x.calledNumber == Some(number)) && !Lists(groups, Some(number))
  {
    assert r in [r];
    FoundButNotListed([r], groups, number);
    DigitsListedExactly(number);
  }
}
