/**
 * SELECT key, max(event_timestamp), count(key) ... GROUP BY key ORDER BY event_timestamp DESC,
 * and SELECT COUNT(DISTINCT key), over the rows that pass the WHERE clause.
 */
module GroupBy {
  import opened Text
  import opened Sequences

  /** What the query sees of a row; None is SQL NULL. */
  datatype KeyedRow = KeyedRow(key: Option<string>, stamp: Option<string>)

  datatype Group = Group(key: Option<string>, seenLast: Option<string>, seenTotal: nat)

  /** count(key) of one group: NULL keys form a group of their own but are not counted. */
  function CountKey(rows: seq<KeyedRow>, key: Option<string>): nat {
    if rows == [] || key.None? then 0
    else CountKey(rows[..|rows| - 1], key) + if rows[|rows| - 1].key == key then 1 else 0
  }

  function CountAll(rows: seq<KeyedRow>): nat {
    if rows == [] then 0 else CountAll(rows[..|rows| - 1]) + if rows[|rows| - 1].key.Some? then 1 else 0
  }

  /** max() over one group: the greatest timestamp in byte order, NULL if there is none. */
  predicate IsLatest(rows: seq<KeyedRow>, key: Option<string>, m: Option<string>) {
    && (forall r :: r in rows && r.key == key && r.stamp.Some? ==> m.Some? && AtMost(r.stamp.value, m.value))
    && (m.Some? ==> KeyedRow(key, m) in rows)
  }

  /** Descending order, NULL last. The bare column of a max() query is taken from the row of the maximum. */
  predicate Descending(a: Option<string>, b: Option<string>) {
    b.None? || (a.Some? && AtMost(b.value, a.value))
  }

  predicate Sorted(groups: seq<Group>) {
    forall i, j :: 0 <= i < j < |groups| ==> Descending(groups[i].seenLast, groups[j].seenLast)
  }

  predicate DistinctKeys(groups: seq<Group>) {
    forall i, j :: 0 <= i < j < |groups| ==> groups[i].key != groups[j].key
  }

  predicate IsGroupOf(rows: seq<KeyedRow>, g: Group) {
    HasKey(rows, g.key) && g.seenTotal == CountKey(rows, g.key) && IsLatest(rows, g.key, g.seenLast)
  }

  predicate HasKey(rows: seq<KeyedRow>, key: Option<string>) {
    exists r :: r in rows && r.key == key
  }

  predicate Lists(groups: seq<Group>, key: Option<string>) {
    exists g :: g in groups && g.key == key
  }

  /** The possible results of the grouped query: SQL fixes everything but the order among equal timestamps. */
  predicate IsGrouping(rows: seq<KeyedRow>, groups: seq<Group>) {
    && DistinctKeys(groups) && Sorted(groups)
    && (forall g :: g in groups ==> IsGroupOf(rows, g))
    && (forall r :: r in rows ==> Lists(groups, r.key))
  }

  function DistinctCount(rows: seq<KeyedRow>): nat {
    |set r | r in rows && r.key.Some? :: r.key|
  }

  // ----- the result is determined up to ties -----

  lemma LatestIsUnique(rows: seq<KeyedRow>, key: Option<string>, m: Option<string>, m': Option<string>)
    requires IsLatest(rows, key, m) && IsLatest(rows, key, m')
    ensures m == m'
  {
    if m.Some? && m'.Some? {
      LessIsStrictAndTotal(m.value, m'.value);
    }
  }

  lemma SameGroups(rows: seq<KeyedRow>, a: seq<Group>, b: seq<Group>, g: Group)
    requires IsGrouping(rows, a) && IsGrouping(rows, b) && g in a
    ensures g in b
  {
    var r :| r in rows && r.key == g.key;
    assert Lists(b, r.key);
    var h :| h in b && h.key == g.key;
    LatestIsUnique(rows, g.key, g.seenLast, h.seenLast);
  }

  /** Any two results of the query are permutations of each other. */
  lemma GroupingIsDetermined(rows: seq<KeyedRow>, a: seq<Group>, b: seq<Group>)
    requires IsGrouping(rows, a) && IsGrouping(rows, b)
    ensures multiset(a) == multiset(b)
  {
    forall g: Group
      ensures g in a <==> g in b
    {
      if g in a { SameGroups(rows, a, b, g); }
      if g in b { SameGroups(rows, b, a, g); }
    }
    SameElementsOnce(a, b);
  }

  // ----- a reference evaluation -----

  lemma DescendingIsTransitive(a: Option<string>, b: Option<string>, c: Option<string>)
    requires Descending(a, b) && Descending(b, c)
    ensures Descending(a, c)
  {
    if c.Some? && b.value != a.value && c.value != b.value {
      LessIsTransitive(c.value, b.value, a.value);
    }
  }

  function Later(a: Option<string>, b: Option<string>): Option<string> {
    if Descending(a, b) then a else b
  }

  /** Put a group behind those that were seen at least as late. */
  function Place(groups: seq<Group>, g: Group): (placed: seq<Group>)
    requires Sorted(groups)
    ensures Sorted(placed) && multiset(placed) == multiset(groups) + multiset{g}
  {
    if groups == [] then [g]
    else if Descending(groups[0].seenLast, g.seenLast) then
      var rest := Place(groups[1..], g);
      assert groups == [groups[0]] + groups[1..];
      PlacedBehind(groups, g, rest);
      [groups[0]] + rest
    else
      PlacedFirst(groups, g);
      [g] + groups
  }

  lemma PlacedBehind(groups: seq<Group>, g: Group, rest: seq<Group>)
    requires groups != [] && Sorted(groups) && Sorted(rest) && Descending(groups[0].seenLast, g.seenLast)
    requires multiset(rest) == multiset(groups[1..]) + multiset{g}
    ensures Sorted([groups[0]] + rest)
  {
    forall j | 0 <= j < |rest|
      ensures Descending(groups[0].seenLast, rest[j].seenLast)
    {
      assert rest[j] in multiset(rest);
      if rest[j] != g {
        assert rest[j] in groups[1..];
        var i :| 0 <= i < |groups[1..]| && groups[1..][i] == rest[j];
        assert groups[i + 1] == rest[j];
      }
    }
  }

  lemma PlacedFirst(groups: seq<Group>, g: Group)
    requires groups != [] && Sorted(groups) && !Descending(groups[0].seenLast, g.seenLast)
    ensures Sorted([g] + groups)
  {
    if groups[0].seenLast.Some? {
      LessIsStrictAndTotal(g.seenLast.value, groups[0].seenLast.value);
    }
    forall j | 0 <= j < |groups|
      ensures Descending(g.seenLast, groups[j].seenLast)
    {
      if j > 0 {
        DescendingIsTransitive(g.seenLast, groups[0].seenLast, groups[j].seenLast);
      }
    }
  }

  function Except(groups: seq<Group>, key: Option<string>): seq<Group> {
    if groups == [] then []
    else if groups[0].key == key then Except(groups[1..], key)
    else [groups[0]] + Except(groups[1..], key)
  }

  lemma {:induction false} ExceptElements(groups: seq<Group>, key: Option<string>)
    ensures forall g :: g in Except(groups, key) <==> g in groups && g.key != key
  {
    if groups != [] {
      ExceptElements(groups[1..], key);
      assert groups == [groups[0]] + groups[1..];
    }
  }

  lemma {:induction false} ExceptKeepsOrder(groups: seq<Group>, key: Option<string>)
    requires Sorted(groups) && DistinctKeys(groups)
    ensures Sorted(Except(groups, key)) && DistinctKeys(Except(groups, key))
  {
    if groups != [] {
      ExceptKeepsOrder(groups[1..], key);
      ExceptElements(groups[1..], key);
      var rest := Except(groups[1..], key);
      forall j | 0 <= j < |rest|
        ensures Descending(groups[0].seenLast, rest[j].seenLast) && groups[0].key != rest[j].key
      {
        assert rest[j] in groups[1..];
        var i :| 0 <= i < |groups[1..]| && groups[1..][i] == rest[j];
        assert groups[i + 1] == rest[j];
      }
    }
  }

  function LastSeen(groups: seq<Group>, key: Option<string>): Option<string> {
    if groups == [] then None else if groups[0].key == key then groups[0].seenLast else LastSeen(groups[1..], key)
  }

  lemma {:induction false} LastSeenOf(rows: seq<KeyedRow>, groups: seq<Group>, key: Option<string>)
    requires forall g :: g in groups ==> IsGroupOf(rows, g)
    ensures Lists(groups, key) ==> IsLatest(rows, key, LastSeen(groups, key))
    ensures !Lists(groups, key) ==> LastSeen(groups, key) == None
  {
    if groups != [] {
      assert groups == [groups[0]] + groups[1..];
      assert IsGroupOf(rows, groups[0]) && groups[0] in groups;
      LastSeenOf(rows, groups[1..], key);
      assert Lists(groups, key) <==> groups[0].key == key || Lists(groups[1..], key);
    }
  }

  /** Read the rows one by one, keeping the groups in order. */
  function Reference(rows: seq<KeyedRow>): (groups: seq<Group>)
    ensures IsGrouping(rows, groups)
  {
    if rows == [] then []
    else
      var last := rows[|rows| - 1];
      var before := Reference(rows[..|rows| - 1]);
      var g := Group(last.key, Later(LastSeen(before, last.key), last.stamp), CountKey(rows, last.key));
      ExceptKeepsOrder(before, last.key);
      var placed := Place(Except(before, last.key), g);
      assert IsGrouping(rows, placed) by {
        ReferenceStep(rows, before, g, placed);
      }
      placed
  }

  lemma NewLatest(rows: seq<KeyedRow>, before: seq<Group>)
    requires rows != [] && IsGrouping(rows[..|rows| - 1], before)
    ensures var last := rows[|rows| - 1]; IsLatest(rows, last.key, Later(LastSeen(before, last.key), last.stamp))
  {
    var last, init := rows[|rows| - 1], rows[..|rows| - 1];
    var prior := LastSeen(before, last.key);
    LastSeenOf(init, before, last.key);
    if prior.Some? && last.stamp.Some? {
      LessIsStrictAndTotal(prior.value, last.stamp.value);
    }
    assert forall r :: r in rows <==> r in init || r == last;
    forall r | r in rows && r.key == last.key && r.stamp.Some?
      ensures Later(prior, last.stamp).Some? && AtMost(r.stamp.value, Later(prior, last.stamp).value)
    {
      if r in init {
        assert Lists(before, r.key);
        if Later(prior, last.stamp) == last.stamp && r.stamp != prior && prior != last.stamp {
          LessIsTransitive(r.stamp.value, prior.value, last.stamp.value);
        }
      }
    }
  }

  lemma OtherGroup(rows: seq<KeyedRow>, g: Group)
    requires rows != [] && IsGroupOf(rows[..|rows| - 1], g) && g.key != rows[|rows| - 1].key
    ensures IsGroupOf(rows, g)
  {
    assert forall r :: r in rows <==> r in rows[..|rows| - 1] || r == rows[|rows| - 1];
  }

  lemma PlacedElements(a: seq<Group>, b: seq<Group>, g: Group)
    requires multiset(b) == multiset(a) + multiset{g} && DistinctKeys(a) && !Lists(a, g.key)
    ensures forall x :: x in b <==> x in a || x == g
    ensures DistinctKeys(b)
  {
    forall x: Group
      ensures x in b <==> x in a || x == g
    {
      assert x in b <==> x in multiset(b);
      assert x in a <==> x in multiset(a);
    }
    if !DistinctKeys(b) {
      var i, j :| 0 <= i < j < |b| && b[i].key == b[j].key;
      SameKeySameGroup(a, b[i], b[j], g);
      assert b == b[..i] + [b[i]] + b[i + 1..j] + [b[j]] + b[j + 1..];
      assert multiset(b)[b[i]] >= 2;
      AtMostOnce(a, b[i]);
    }
  }

  lemma SameKeySameGroup(a: seq<Group>, x: Group, y: Group, g: Group)
    requires DistinctKeys(a) && !Lists(a, g.key) && x.key == y.key
    requires (x in a || x == g) && (y in a || y == g)
    ensures x == y
  {
  }

  lemma ReferenceStep(rows: seq<KeyedRow>, before: seq<Group>, g: Group, placed: seq<Group>)
    requires rows != [] && IsGrouping(rows[..|rows| - 1], before)
    requires var last := rows[|rows| - 1];
             g == Group(last.key, Later(LastSeen(before, last.key), last.stamp), CountKey(rows, last.key))
    requires Sorted(placed) && multiset(placed) == multiset(Except(before, g.key)) + multiset{g}
    ensures IsGrouping(rows, placed)
  {
    var last, init, rest := rows[|rows| - 1], rows[..|rows| - 1], Except(before, g.key);
    ExceptElements(before, g.key);
    ExceptKeepsOrder(before, g.key);
    assert last in rows && !Lists(rest, g.key);
    PlacedElements(rest, placed, g);
    NewLatest(rows, before);
    forall h | h in placed
      ensures IsGroupOf(rows, h)
    {
      if h in rest {
        OtherGroup(rows, h);
      }
    }
    forall r | r in rows
      ensures Lists(placed, r.key)
    {
      if r.key == g.key {
        assert g in placed;
      } else {
        assert r in init && Lists(before, r.key);
        var h :| h in before && h.key == r.key;
        assert h in rest && h in placed;
      }
    }
  }

  // ----- how many groups, how many rows -----

  lemma {:induction false} KeysOfGroups(groups: seq<Group>) returns (keys: set<Option<string>>)
    requires DistinctKeys(groups)
    ensures |keys| == |groups| && forall k :: k in keys <==> Lists(groups, k)
  {
    keys := {};
    if groups != [] {
      var rest := KeysOfGroups(groups[1..]);
      assert groups == [groups[0]] + groups[1..];
      forall g | g in groups[1..]
        ensures g.key != groups[0].key
      {
        var i :| 0 <= i < |groups[1..]| && groups[1..][i] == g;
        assert groups[i + 1] == g;
      }
      keys := rest + {groups[0].key};
    }
  }

  /** There are at least as many groups as distinct non-NULL keys, and as many if no key is NULL. */
  lemma GroupCount(rows: seq<KeyedRow>, groups: seq<Group>)
    requires IsGrouping(rows, groups)
    ensures DistinctCount(rows) <= |groups|
    ensures (forall r :: r in rows ==> r.key.Some?) ==> |groups| == DistinctCount(rows)
  {
    var keys := KeysOfGroups(groups);
    var counted := set r | r in rows && r.key.Some? :: r.key;
    forall k | k in counted
      ensures k in keys
    {
      var r :| r in rows && r.key == k;
      assert Lists(groups, r.key);
    }
    SubsetSize(counted, keys);
    if forall r :: r in rows ==> r.key.Some? {
      forall k | k in keys
        ensures k in counted
      {
        var g :| g in groups && g.key == k;
        var r :| r in rows && r.key == g.key;
      }
      assert counted == keys;
    }
  }

  /** More rows can only add keys. */
  lemma DistinctCountGrows(rows: seq<KeyedRow>, more: seq<KeyedRow>)
    ensures DistinctCount(rows) <= DistinctCount(rows + more)
  {
    SubsetSize(set r | r in rows && r.key.Some? :: r.key, set r | r in rows + more && r.key.Some? :: r.key);
  }

  function TotalSeen(groups: seq<Group>): nat {
    if groups == [] then 0 else groups[0].seenTotal + TotalSeen(groups[1..])
  }

  /** Counts of the listed keys, for any rows. */
  function SumCounts(groups: seq<Group>, rows: seq<KeyedRow>): nat {
    if groups == [] then 0 else CountKey(rows, groups[0].key) + SumCounts(groups[1..], rows)
  }

  lemma {:induction false} OneMoreRow(groups: seq<Group>, rows: seq<KeyedRow>)
    requires rows != [] && DistinctKeys(groups)
    ensures SumCounts(groups, rows) == SumCounts(groups, rows[..|rows| - 1]) +
            if rows[|rows| - 1].key.Some? && Lists(groups, rows[|rows| - 1].key) then 1 else 0
  {
    if groups != [] {
      OneMoreRow(groups[1..], rows);
      assert groups == [groups[0]] + groups[1..];
      assert forall g :: g in groups[1..] ==> g.key != groups[0].key by {
        forall g | g in groups[1..]
          ensures g.key != groups[0].key
        {
          var i :| 0 <= i < |groups[1..]| && groups[1..][i] == g;
          assert groups[i + 1] == g;
        }
      }
    }
  }

  lemma {:induction false} AllCounted(groups: seq<Group>, rows: seq<KeyedRow>)
    requires DistinctKeys(groups) && forall r :: r in rows ==> Lists(groups, r.key)
    ensures SumCounts(groups, rows) == CountAll(rows)
  {
    if rows == [] {
      NothingCounted(groups);
    } else {
      OneMoreRow(groups, rows);
      AllCounted(groups, rows[..|rows| - 1]);
    }
  }

  lemma {:induction false} NothingCounted(groups: seq<Group>)
    ensures SumCounts(groups, []) == 0
  {
    if groups != [] {
      NothingCounted(groups[1..]);
    }
  }

  lemma {:induction false} TotalsAreCounts(groups: seq<Group>, rows: seq<KeyedRow>)
    requires forall g :: g in groups ==> g.seenTotal == CountKey(rows, g.key)
    ensures TotalSeen(groups) == SumCounts(groups, rows)
  {
    if groups != [] {
      TotalsAreCounts(groups[1..], rows);
    }
  }

  lemma {:induction false} AllKeysCount(rows: seq<KeyedRow>)
    requires forall r :: r in rows ==> r.key.Some?
    ensures CountAll(rows) == |rows|
  {
    if rows != [] {
      AllKeysCount(rows[..|rows| - 1]);
    }
  }

  /** The seen_total values add up to the number of rows with a key: nothing is counted twice or lost. */
  lemma TotalsAddUp(rows: seq<KeyedRow>, groups: seq<Group>)
    requires IsGrouping(rows, groups)
    ensures TotalSeen(groups) == CountAll(rows)
    ensures (forall r :: r in rows ==> r.key.Some?) ==> TotalSeen(groups) == |rows|
  {
    TotalsAreCounts(groups, rows);
    AllCounted(groups, rows);
    if forall r :: r in rows ==> r.key.Some? {
      AllKeysCount(rows);
    }
  }
}
