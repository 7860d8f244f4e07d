/**
 * The summary table of a read command (`response_message_dialog`): the
 * address/value entries of the results dict, walked in insertion order,
 * are merged into rows. A row covers a run of entries whose addresses go up
 * by one from each entry to the next and whose values are all equal; it is
 * labelled with its one address, or "first-last" for a longer run.
 */
module Summary {
  import opened Wrappers
  import opened OrderedMap

  /** One table row: the addresses `first .. last` (inclusive), all holding `value`. */
  datatype Row = Row(first: int, last: int, value: int)

  /** The entries a row stands for, in ascending address order. */
  function RowEntries(r: Row): (es: seq<Entry<int>>)
    ensures |es| == if r.first <= r.last then r.last - r.first + 1 else 0
    ensures forall j | 0 <= j < |es| :: es[j] == Entry(r.first + j, r.value)
  {
    seq(if r.first <= r.last then r.last - r.first + 1 else 0, j => Entry(r.first + j, r.value))
  }

  /** The entries of all rows, row after row: the inverse of the summary. */
  function Expand(rows: seq<Row>): seq<Entry<int>> {
    if rows == [] then [] else Expand(rows[..|rows| - 1]) + RowEntries(rows[|rows| - 1])
  }

  predicate WellFormed(rows: seq<Row>) {
    forall r <- rows :: r.first <= r.last
  }

  /** Entry `b` continues a run ending in entry `a`: `address - 1 == la and result == lr`. */
  predicate Continues(a: Entry<int>, b: Entry<int>) {
    b.addr - 1 == a.addr && b.value == a.value
  }

  /** Row `s` could have been merged into row `r` before it. */
  predicate Joinable(r: Row, s: Row) {
    r.last + 1 == s.first && r.value == s.value
  }

  /** No two neighbouring rows could be merged: every run is as long as it can be. */
  predicate Maximal(rows: seq<Row>) {
    forall k | 0 <= k < |rows| - 1 :: !Joinable(rows[k], rows[k + 1])
  }

  /** The row of the run in progress: from `fa` (or `la` when no run started) to `la`. */
  function Pending(fa: Option<int>, la: int, lr: int): Row {
    Row(if fa.None? then la else fa.value, la, lr)
  }

  lemma {:induction false} ExpandSnoc(rows: seq<Row>, r: Row)
    ensures Expand(rows + [r]) == Expand(rows) + RowEntries(r)
  {
    assert (rows + [r])[..|rows|] == rows;
  }

  /** Growing the last row by one address adds that one entry at the end. */
  lemma {:induction false} ExpandGrow(rows: seq<Row>, r: Row)
    requires r.first <= r.last
    ensures Expand(rows + [Row(r.first, r.last + 1, r.value)]) ==
      Expand(rows + [r]) + [Entry(r.last + 1, r.value)]
  {
    ExpandSnoc(rows, r);
    ExpandSnoc(rows, Row(r.first, r.last + 1, r.value));
    assert RowEntries(Row(r.first, r.last + 1, r.value)) == RowEntries(r) + [Entry(r.last + 1, r.value)];
  }

  /**
   * The state of the walk after the first `i` entries: `la` and `lr` are the
   * last entry's address and value, the rows so far plus the run in
   * progress expand to exactly those entries and none could be merged.
   */
  predicate Walked(results: seq<Entry<int>>, i: nat, table: seq<Row>, la: Option<int>, lr: int, fa: Option<int>) {
    && i <= |results|
    && (i == 0 <==> la.None?)
    && (i == 0 ==> table == [] && fa.None?)
    && (i > 0 ==> la == Some(results[i - 1].addr) && lr == results[i - 1].value)
    && (i > 0 ==>
      var rows := table + [Pending(fa, la.value, lr)];
      WellFormed(rows) && Maximal(rows) && Expand(rows) == results[..i])
  }

  /**
   * `response_message_dialog`'s walk over the entries: `la`, `lr` and `fa`
   * are the last address, the last value and the first address of the run
   * in progress; a row is appended when a run ends, and the last run after
   * the walk. The rows expand back to exactly the entries, in order, and
   * no two neighbouring rows could have been merged.
   */
  method SummaryRows(results: seq<Entry<int>>) returns (table: seq<Row>)
    requires results != []
    ensures WellFormed(table) && Maximal(table)
    ensures Expand(table) == results
  {
    table := [];
    var la: Option<int> := None;
    var lr: int := 0;
    var fa: Option<int> := None;
    for i := 0 to |results|
      invariant Walked(results, i, table, la, lr, fa)
    {
      table, fa := SummaryStep(results, i, table, la, lr, fa);
      la, lr := Some(results[i].addr), results[i].value;
    }
    assert results[..|results|] == results;
    if fa.None? {
      table := table + [Row(la.value, la.value, lr)];
    } else {
      table := table + [Row(fa.value, la.value, lr)];
    }
  }

  /** One entry of the walk: extend the run in progress, or close it and start a new one. */
  method SummaryStep(results: seq<Entry<int>>, i: nat, table: seq<Row>, la: Option<int>, lr: int, fa: Option<int>)
    returns (table': seq<Row>, fa': Option<int>)
    requires i < |results| && Walked(results, i, table, la, lr, fa)
    ensures Walked(results, i + 1, table', Some(results[i].addr), results[i].value, fa')
  {
    table', fa' := table, fa;
    var address, result := results[i].addr, results[i].value;
    if la == Some(address - 1) && result == lr {
      var before := Pending(fa, la.value, lr);
      if fa.None? {
        fa' := la;
      }
      GrowStep(table, before, results, i);
    } else if la.Some? {
      if fa.None? {
        table' := table + [Row(la.value, la.value, lr)];
        fa' := None;
      } else {
        table' := table + [Row(fa.value, la.value, lr)];
        fa' := None;
      }
      NewRowStep(table', results, i);
    } else {
      FirstStep(results);
    }
  }

  /** The first entry starts the first run. */
  lemma {:induction false} FirstStep(results: seq<Entry<int>>)
    requires results != []
    ensures var rows := [] + [Row(results[0].addr, results[0].addr, results[0].value)];
      WellFormed(rows) && Maximal(rows) && Expand(rows) == results[..1]
  {
    var r := Row(results[0].addr, results[0].addr, results[0].value);
    ExpandSnoc([], r);
    assert [] + [r] == [r];
    assert RowEntries(r) == [results[0]];
  }

  /** Extending the run in progress by entry `i` keeps the invariant of the walk. */
  lemma {:induction false} GrowStep(table: seq<Row>, before: Row, results: seq<Entry<int>>, i: nat)
    requires 0 < i < |results| && before.first <= before.last
    requires before.last == results[i - 1].addr && before.value == results[i - 1].value
    requires Continues(results[i - 1], results[i])
    requires WellFormed(table + [before]) && Maximal(table + [before])
    requires Expand(table + [before]) == results[..i]
    ensures var after := Row(before.first, before.last + 1, before.value);
      WellFormed(table + [after]) && Maximal(table + [after]) && Expand(table + [after]) == results[..i + 1]
  {
    var after := Row(before.first, before.last + 1, before.value);
    ExpandGrow(table, before);
    assert results[..i + 1] == results[..i] + [results[i]];
    var rows, rows' := table + [before], table + [after];
    forall k | 0 <= k < |rows'| - 1 ensures !Joinable(rows'[k], rows'[k + 1]) {
      assert rows'[k] == rows[k];
      if k + 1 < |table| {
        assert rows'[k + 1] == rows[k + 1];
      }
    }
  }

  /** Closing the run in progress and starting a new one at entry `i` keeps the invariant. */
  lemma {:induction false} NewRowStep(table: seq<Row>, results: seq<Entry<int>>, i: nat)
    requires 0 < i < |results| && table != []
    requires var ended := table[|table| - 1];
      ended.last == results[i - 1].addr && ended.value == results[i - 1].value
    requires !Continues(results[i - 1], results[i])
    requires WellFormed(table) && Maximal(table)
    requires Expand(table) == results[..i]
    ensures var started := Row(results[i].addr, results[i].addr, results[i].value);
      WellFormed(table + [started]) && Maximal(table + [started]) && Expand(table + [started]) == results[..i + 1]
  {
    var started := Row(results[i].addr, results[i].addr, results[i].value);
    ExpandSnoc(table, started);
    assert RowEntries(started) == [results[i]];
    assert results[..i + 1] == results[..i] + [results[i]];
    var rows := table + [started];
    assert !Joinable(table[|table| - 1], started);
    assert forall k | 0 <= k < |table| :: rows[k] == table[k];
  }

  // ---------------------------------------------------------------------
  // The summary is determined by the entries
  // ---------------------------------------------------------------------

  lemma {:induction false} ExpandLast(rows: seq<Row>)
    requires rows != [] && WellFormed(rows)
    ensures var r := rows[|rows| - 1];
      var e := Expand(rows);
      && |e| == |Expand(rows[..|rows| - 1])| + (r.last - r.first + 1)
      && e[|e| - 1] == Entry(r.last, r.value)
  {
    assert rows[|rows| - 1] in rows;
  }

  /**
   * If the last row of `a` starts later than the last row of `b`, the entry
   * just before it lies inside the last row of `b`, so the last two rows of
   * `a` could be merged.
   */
  lemma {:induction false} JoinableWhenLater(a: seq<Row>, b: seq<Row>)
    requires a != [] && b != [] && WellFormed(a) && WellFormed(b)
    requires Expand(a) == Expand(b)
    requires a[|a| - 1].first > b[|b| - 1].first
    ensures |a| >= 2 && Joinable(a[|a| - 2], a[|a| - 1])
  {
    var ra, rb := a[|a| - 1], b[|b| - 1];
    var init := a[..|a| - 1];
    var xa, xb := Expand(init), Expand(b[..|b| - 1]);
    var e := Expand(a);
    ExpandLast(a);
    ExpandLast(b);
    var p := |xa| - 1;
    var k := ra.first - rb.first - 1;
    assert |xb| + k == p;
    assert e == xb + RowEntries(rb);
    assert e[p] == RowEntries(rb)[k] == Entry(ra.first - 1, ra.value);
    assert init != [];
    assert forall r <- init :: r in a;
    ExpandLast(init);
    assert e == xa + RowEntries(ra);
    assert e[p] == xa[|xa| - 1];
    assert init[|init| - 1] == a[|a| - 2];
  }

  /** In two maximal summaries of the same entries, the last row of the first starts no later. */
  lemma {:induction false} LastRowStart(a: seq<Row>, b: seq<Row>)
    requires a != [] && b != [] && WellFormed(a) && WellFormed(b) && Maximal(a)
    requires Expand(a) == Expand(b)
    ensures a[|a| - 1].first <= b[|b| - 1].first
  {
    if a[|a| - 1].first > b[|b| - 1].first {
      JoinableWhenLater(a, b);
      assert false;
    }
  }

  /**
   * Two summaries of the same entries in which no neighbouring rows could
   * be merged are the same summary: `SummaryRows` computes the one
   * run-length encoding of its input.
   */
  lemma {:induction false} SummaryUnique(a: seq<Row>, b: seq<Row>)
    requires WellFormed(a) && WellFormed(b) && Maximal(a) && Maximal(b)
    requires Expand(a) == Expand(b)
    ensures a == b
    decreases |a|
  {
    if a == [] || b == [] {
      if a != [] {
        ExpandLast(a);
      }
      if b != [] {
        ExpandLast(b);
      }
    } else {
      LastRowStart(a, b);
      LastRowStart(b, a);
      ExpandLast(a);
      ExpandLast(b);
      var ia, ib := a[..|a| - 1], b[..|b| - 1];
      var ra := a[|a| - 1];
      var e := Expand(a);
      assert e == Expand(ia) + RowEntries(ra) && e == Expand(ib) + RowEntries(ra);
      assert Expand(ia) == e[..|Expand(ia)|] == Expand(ib);
      MaximalInit(a);
      MaximalInit(b);
      SummaryUnique(ia, ib);
      assert a == ia + [ra] && b == ib + [ra];
    }
  }

  lemma {:induction false} MaximalInit(a: seq<Row>)
    requires a != [] && WellFormed(a) && Maximal(a)
    ensures WellFormed(a[..|a| - 1]) && Maximal(a[..|a| - 1])
  {
    var ia := a[..|a| - 1];
    assert forall r <- ia :: r in a;
    forall k | 0 <= k < |ia| - 1 ensures !Joinable(ia[k], ia[k + 1]) {
      assert ia[k] == a[k] && ia[k + 1] == a[k + 1];
    }
  }
}
