/** Record mapping over tables that have already been split into cells: the
    search-results grid (`parse_rows`), the Filing History table
    (`parse_filing_history_table`) and the Governors table of the Business
    Information page. Every cell is the text of a `<td>` with surrounding white
    space already removed. */
module Grid {
  import opened Wrappers
  import opened Text

  // ---------------------------------------------------------------------------
  // Results grid

  /** One `<tr ng-repeat>` of the results grid: its cell texts, and the
      `ng-click` attribute of its `a.btn-link` when the row has that link
      (an absent attribute reads as ""). */
  datatype GridRow = GridRow(cells: seq<string>, link: Option<string>)

  datatype ResultRow = ResultRow(businessID: Option<string>, name: string, columns: seq<string>)

  const ShowPrefix: string := "showBusineInfo("

  /** The anchored match of `showBusineInfo\((\d+),` at the start of `s`: the digits. */
  function IdAt(s: string): (r: Option<string>)
    ensures r.Some? ==> r.value != [] && AllDigits(r.value)
    ensures r.Some? ==> StartsWith(s, ShowPrefix + r.value + ",")
  {
    if !StartsWith(s, ShowPrefix) then None
    else
      var t := s[|ShowPrefix|..];
      var k := DigitRun(t);
      if k == 0 || k == |t| || t[k] != ',' then None
      else
        assert s[..|ShowPrefix| + k + 1] == ShowPrefix + t[..k] + ",";
        Some(t[..k])
  }

  /** `re.search(r"showBusineInfo\((\d+),", s).group(1)`, or None. */
  function BusinessIdOf(s: string): (r: Option<string>)
    ensures r.Some? ==> r.value != [] && AllDigits(r.value) && Contains(s, ShowPrefix + r.value + ",")
    decreases |s|
  {
    if IdAt(s).Some? then IdAt(s)
    else if s == [] then None
    else BusinessIdOf(s[1..])
  }

  /** A call with a digit string is always found, and the digits are its own
      when nothing earlier in the attribute matches. */
  lemma {:induction false} BusinessIdOfCall(pre: string, d: string, rest: string)
    requires d != [] && AllDigits(d)
    requires forall q :: 0 <= q <= |pre| ==> IdAt((pre + ShowPrefix + d + "," + rest)[q..]).None? || q == |pre|
    ensures BusinessIdOf(pre + ShowPrefix + d + "," + rest) == Some(d)
    decreases |pre|
  {
    var s := pre + ShowPrefix + d + "," + rest;
    if pre == [] {
      assert s == ShowPrefix + (d + ("," + rest));
      assert s[|ShowPrefix|..] == d + ("," + rest);
      DigitRunOfDigits(d, "," + rest);
    } else {
      assert IdAt(s[0..]).None?;
      assert s[0..] == s;
      var s' := pre[1..] + ShowPrefix + d + "," + rest;
      assert s[1..] == s';
      forall q | 0 <= q <= |pre[1..]|
        ensures IdAt(s'[q..]).None? || q == |pre[1..]|
      {
        assert s'[q..] == s[q + 1..];
      }
      BusinessIdOfCall(pre[1..], d, rest);
    }
  }

  /** No match anywhere means no id. */
  lemma {:induction false} BusinessIdOfNone(s: string)
    requires forall q :: 0 <= q <= |s| ==> IdAt(s[q..]).None?
    ensures BusinessIdOf(s) == None
    decreases |s|
  {
    assert s[0..] == s;
    if s != [] {
      forall q | 0 <= q <= |s[1..]| ensures IdAt(s[1..][q..]).None? {
        assert s[1..][q..] == s[q + 1..];
      }
      BusinessIdOfNone(s[1..]);
    }
  }

  /** The record of a row that has cells. */
  function RowRecord(tr: GridRow): (r: ResultRow)
    requires tr.cells != []
  {
    ResultRow(if tr.link.Some? then BusinessIdOf(tr.link.value) else None, tr.cells[0], tr.cells)
  }

  /** The rows that have at least one cell, in order. */
  function RowsWithCells(trs: seq<GridRow>): (kept: seq<GridRow>)
    ensures forall i :: 0 <= i < |kept| ==> kept[i].cells != []
    ensures |kept| <= |trs|
  {
    if trs == [] then []
    else RowsWithCells(trs[..|trs| - 1]) + (if trs[|trs| - 1].cells != [] then [trs[|trs| - 1]] else [])
  }

  /** A row survives exactly when it has cells. */
  lemma {:induction false} RowsWithCellsMembers(trs: seq<GridRow>, tr: GridRow)
    ensures tr in RowsWithCells(trs) <==> tr in trs && tr.cells != []
  {
    if trs != [] {
      RowsWithCellsMembers(trs[..|trs| - 1], tr);
      assert trs == trs[..|trs| - 1] + [trs[|trs| - 1]];
    }
  }

  /** `parse_rows` on the rows of the results table: rows without cells are
      dropped, every other row becomes one record, in order. */
  method ParseRows(trs: seq<GridRow>) returns (rows: seq<ResultRow>)
    ensures |rows| == |RowsWithCells(trs)|
    ensures forall i :: 0 <= i < |rows| ==> rows[i] == RowRecord(RowsWithCells(trs)[i])
  {
    rows := [];
    for n := 0 to |trs|
      invariant |rows| == |RowsWithCells(trs[..n])|
      invariant forall i :: 0 <= i < |rows| ==> rows[i] == RowRecord(RowsWithCells(trs[..n])[i])
    {
      assert trs[..n + 1][..n] == trs[..n];
      var tr := trs[n];
      if tr.cells == [] {
        continue;
      }
      var businessID := None;
      if tr.link.Some? {
        var m := BusinessIdOf(tr.link.value);
        if m.Some? {
          businessID := m;
        }
      }
      rows := rows + [ResultRow(businessID, tr.cells[0], tr.cells)];
    }
    assert trs[..|trs|] == trs;
  }

  // ---------------------------------------------------------------------------
  // Filing History table

  /** A `table.table-striped`: the texts of its header cells and the cells of
      each body row. */
  datatype Table = Table(header: seq<string>, body: seq<seq<string>>)

  datatype Filing = Filing(filingNumber: string, filingDateTime: string, effectiveDate: string, filingType: string)

  /** The upper-cased header cells joined by single spaces. */
  function HeaderText(t: Table): string {
    Join(seq(|t.header|, i requires 0 <= i < |t.header| => Upper(t.header[i])), " ")
  }

  predicate IsFilingHistory(t: Table) {
    Contains(HeaderText(t), "FILING NUMBER") && Contains(HeaderText(t), "FILING TYPE")
  }

  /** The index of the first Filing History table, or None. */
  function FirstFilingTable(tables: seq<Table>): (r: Option<nat>)
    ensures r.Some? ==> r.value < |tables| && IsFilingHistory(tables[r.value])
    ensures r.Some? ==> forall j :: 0 <= j < r.value ==> !IsFilingHistory(tables[j])
    ensures r.None? ==> forall j :: 0 <= j < |tables| ==> !IsFilingHistory(tables[j])
  {
    if tables == [] then None
    else if IsFilingHistory(tables[0]) then Some(0)
    else
      var r := FirstFilingTable(tables[1..]);
      if r.Some? then Some(r.value + 1) else None
  }

  /** The filings of the body rows that have at least four cells, in order. */
  function FilingsOf(body: seq<seq<string>>): seq<Filing> {
    if body == [] then []
    else
      var tds := body[|body| - 1];
      FilingsOf(body[..|body| - 1])
        + (if |tds| >= 4 then [Filing(tds[0], tds[1], tds[2], tds[3])] else [])
  }

  /** Every filing is the first four cells of a long-enough body row, taken in order. */
  lemma {:induction false} FilingsAreRows(body: seq<seq<string>>, k: nat)
    requires k < |FilingsOf(body)|
    ensures exists r :: (0 <= r < |body| && |body[r]| >= 4
      && FilingsOf(body)[k] == Filing(body[r][0], body[r][1], body[r][2], body[r][3]))
  {
    var init := body[..|body| - 1];
    if k < |FilingsOf(init)| {
      FilingsAreRows(init, k);
      var r :| 0 <= r < |init| && |init[r]| >= 4
        && FilingsOf(init)[k] == Filing(init[r][0], init[r][1], init[r][2], init[r][3]);
      assert body[r] == init[r];
    } else {
      var r := |body| - 1;
      assert FilingsOf(body)[k] == Filing(body[r][0], body[r][1], body[r][2], body[r][3]);
    }
  }

  /** Exactly the rows with at least four cells yield a filing. */
  lemma {:induction false} FilingsCount(body: seq<seq<string>>)
    ensures |FilingsOf(body)| == |set r | 0 <= r < |body| && |body[r]| >= 4|
  {
    if body != [] {
      var init := body[..|body| - 1];
      FilingsCount(init);
      var a := set r | 0 <= r < |init| && |init[r]| >= 4;
      var b := set r | 0 <= r < |body| && |body[r]| >= 4;
      assert a == set r | 0 <= r < |body| - 1 && |body[r]| >= 4;
      if |body[|body| - 1]| >= 4 {
        assert b == a + {|body| - 1};
      } else {
        assert b == a;
      }
    }
  }

  /** `parse_filing_history_table` on the page's striped tables. */
  method ParseFilingHistoryTable(tables: seq<Table>) returns (filings: seq<Filing>)
    ensures FirstFilingTable(tables).None? ==> filings == []
    ensures FirstFilingTable(tables).Some? ==> filings == FilingsOf(tables[FirstFilingTable(tables).value].body)
  {
    filings := [];
    var i := 0;
    while i < |tables| && !IsFilingHistory(tables[i])
      invariant 0 <= i <= |tables|
      invariant forall j :: 0 <= j < i ==> !IsFilingHistory(tables[j])
    {
      i := i + 1;
    }
    if i == |tables| {
      return;
    }
    var body := tables[i].body;
    for n := 0 to |body|
      invariant filings == FilingsOf(body[..n])
    {
      assert body[..n + 1][..n] == body[..n];
      var tds := body[n];
      if |tds| < 4 {
        continue;
      }
      filings := filings + [Filing(tds[0], tds[1], tds[2], tds[3])];
    }
    assert body[..|body|] == body;
  }

  // ---------------------------------------------------------------------------
  // Governors table

  datatype Governor = Governor(title: string, entityType: string, entityName: string, firstName: string, lastName: string)

  /** `cells[i] if len(cells) > i else ""`. */
  function CellOr(cells: seq<string>, i: nat): string {
    if i < |cells| then cells[i] else ""
  }

  function GovernorOf(cells: seq<string>): Governor {
    Governor(CellOr(cells, 0), CellOr(cells, 1), CellOr(cells, 2), CellOr(cells, 3), CellOr(cells, 4))
  }

  /** A governor worth keeping names something: its entity type alone does not count. */
  predicate Names(g: Governor) {
    g.title != "" || g.entityName != "" || g.firstName != "" || g.lastName != ""
  }

  /** The governors of the table rows after the header row. */
  function GovernorsOf(rows: seq<seq<string>>): seq<Governor> {
    if rows == [] then []
    else
      var cells := rows[|rows| - 1];
      GovernorsOf(rows[..|rows| - 1])
        + (if cells != [] && Names(GovernorOf(cells)) then [GovernorOf(cells)] else [])
  }

  /** Every governor kept names someone. */
  lemma {:induction false} GovernorsName(rows: seq<seq<string>>)
    ensures forall g :: g in GovernorsOf(rows) ==> Names(g)
  {
    if rows != [] {
      GovernorsName(rows[..|rows| - 1]);
    }
  }

  /** A row is represented exactly when it names someone; the header row never is. */
  lemma {:induction false} GovernorRowsKept(rows: seq<seq<string>>, cells: seq<string>)
    requires cells != []
    ensures GovernorOf(cells) in GovernorsOf(rows) <==> exists r :: 0 <= r < |rows| && rows[r] != [] && Names(GovernorOf(rows[r])) && GovernorOf(rows[r]) == GovernorOf(cells)
  {
    if rows != [] {
      var init := rows[..|rows| - 1];
      GovernorRowsKept(init, cells);
      if exists r :: 0 <= r < |init| && init[r] != [] && Names(GovernorOf(init[r])) && GovernorOf(init[r]) == GovernorOf(cells) {
        var r :| 0 <= r < |init| && init[r] != [] && Names(GovernorOf(init[r])) && GovernorOf(init[r]) == GovernorOf(cells);
        assert rows[r] == init[r];
      }
      if exists r :: 0 <= r < |rows| && rows[r] != [] && Names(GovernorOf(rows[r])) && GovernorOf(rows[r]) == GovernorOf(cells) {
        var r :| 0 <= r < |rows| && rows[r] != [] && Names(GovernorOf(rows[r])) && GovernorOf(rows[r]) == GovernorOf(cells);
        if r < |rows| - 1 { assert init[r] == rows[r]; }
      }
    }
  }

  /** The Governors section of `parse_business_information_html`: `table` is
      the rows of the table after the Governors header, or None when there is
      no header or no table. The first row is the column header. */
  method ParseGovernors(table: Option<seq<seq<string>>>) returns (governors: seq<Governor>)
    ensures table.None? || |table.value| <= 1 ==> governors == []
    ensures table.Some? && |table.value| > 1 ==> governors == GovernorsOf(table.value[1..])
  {
    governors := [];
    if table.None? || |table.value| <= 1 {
      return;
    }
    var rows := table.value[1..];
    for n := 0 to |rows|
      invariant governors == GovernorsOf(rows[..n])
    {
      assert rows[..n + 1][..n] == rows[..n];
      var cells := rows[n];
      if cells == [] {
        continue;
      }
      var title := if |cells| > 0 then cells[0] else "";
      var entityType := if |cells| > 1 then cells[1] else "";
      var entityName := if |cells| > 2 then cells[2] else "";
      var firstName := if |cells| > 3 then cells[3] else "";
      var lastName := if |cells| > 4 then cells[4] else "";
      if title != "" || entityName != "" || firstName != "" || lastName != "" {
        governors := governors + [Governor(title, entityType, entityName, firstName, lastName)];
      }
    }
    assert rows[..|rows|] == rows;
  }
}
