/** The results table of the search window and the two ways the window fills
    it: `nayta_aikataulut`, which renders a decoded response (lines 81-130 of
    aikatauluhaku-gui.py), and the failure branch of `hae_aikataulut`, which
    shows the request error (lines 76-79).

    The table is kept as what can be seen of it: a sequence of rows, each a
    sequence of thirteen cells (`None` where no item was set), and whether
    row 0 is merged across all columns. Its Qt operations are the methods
    SetRowCount, AppendRow, SpanFirstRow and SetItem; Render, ShowError and
    Search are written with them, in the source's order. */
module ResultsTable {
  import opened Wrappers
  import opened Connections

  /** The column headers the table is created with (lines 40-44). */
  const Headers: seq<string> := ["Päivämäärä", "Lähtöaika", "Saapumisaika", "Kesto", "Hinta", "Yhtiö",
                                 "Linja", "Vuorotyyppi", "Nimi", "Ajopäivät", "Voimassa", "Pituus (km)",
                                 "Palvelut"]
  const NoConnections := "Ei löytynyt yhteyksiä annetuilla hakuehdoilla."
  const SearchFailed := "Virhe haussa: "

  /** A freshly inserted row: no item in any column. */
  const BlankRow: seq<Option<string>> := [None, None, None, None, None, None, None, None, None, None, None, None, None]

  /** The row of items the thirteen `setItem` calls of lines 116-128 leave. */
  function Filled(row: DisplayRow): (r: seq<Option<string>>)
    ensures |r| == Columns && forall c :: 0 <= c < Columns ==> r[c] == Some(row.Cells()[c])
  {
    seq(Columns, c requires 0 <= c < Columns => Some(row.Cells()[c]))
  }

  function FilledRows(rows: seq<DisplayRow>): seq<seq<Option<string>>> {
    seq(|rows|, i requires 0 <= i < |rows| => Filled(rows[i]))
  }

  /** The single message row: the text in column 0 and nothing in the others. */
  function Placeholder(text: string): seq<Option<string>> {
    BlankRow[0 := Some(text)]
  }

  /** The decoded response body; `None` when it has no `connections` key. */
  datatype Response = Response(connections: Option<seq<Connection>>)

  /** What the `for connection` loop does with the rows it derives, one
      result per connection: it lists every row, or it stops at the first
      connection that raises, having written the rows before it. */
  datatype Outcome = Listed(rows: seq<DisplayRow>) | Aborted(rows: seq<DisplayRow>, fault: Fault)

  function Collect(results: seq<Result<DisplayRow, Fault>>): Outcome {
    if results == [] then Listed([])
    else
      match Collect(results[..|results| - 1])
      case Aborted(rows, f) => Aborted(rows, f)
      case Listed(rows) =>
        match results[|results| - 1]
        case Ok(row) => Listed(rows + [row])
        case Err(f) => Aborted(rows, f)
  }

  /** Each connection's derived row or exception, in input order. */
  function Derived(connections: seq<Connection>): (r: seq<Result<DisplayRow, Fault>>)
    ensures |r| == |connections| && forall i :: 0 <= i < |connections| ==> r[i] == RowFor(connections[i])
  {
    seq(|connections|, i requires 0 <= i < |connections| => RowFor(connections[i]))
  }

  /** The visible table after rendering, and the exception that escapes, if any. */
  datatype Rendering = Rendering(cells: seq<seq<Option<string>>>, spanned: bool, fault: Option<Fault>)

  /** What `nayta_aikataulut(data)` leaves, whatever the table held before. */
  function Display(data: Response): Rendering {
    if data.connections.None? || |data.connections.value| == 0 then
      Rendering([Placeholder(NoConnections)], true, None)
    else
      Listing(Collect(Derived(data.connections.value)))
  }

  /** The table the loop leaves: its rows, and a blank one under them when it stopped. */
  function Listing(outcome: Outcome): Rendering {
    match outcome
    case Listed(rows) => Rendering(FilledRows(rows), false, None)
    case Aborted(rows, f) => Rendering(FilledRows(rows) + [BlankRow], false, Some(f))
  }

  /** The loop lists every row exactly when no connection raises; row i is
      then connection i's. When it stops, it stops at the first connection
      that raises, with the rows of all those before it. */
  lemma {:induction false} CollectSpec(results: seq<Result<DisplayRow, Fault>>)
    ensures Collect(results).Listed? <==> forall i :: 0 <= i < |results| ==> results[i].Ok?
    ensures Collect(results).Listed? ==>
      |Collect(results).rows| == |results| &&
      forall i :: 0 <= i < |results| ==> results[i] == Ok(Collect(results).rows[i])
    ensures Collect(results).Aborted? ==>
      |Collect(results).rows| < |results| &&
      results[|Collect(results).rows|] == Err(Collect(results).fault) &&
      forall i :: 0 <= i < |Collect(results).rows| ==> results[i] == Ok(Collect(results).rows[i])
  {
    if results != [] {
      var init := results[..|results| - 1];
      CollectSpec(init);
      assert forall i :: 0 <= i < |init| ==> init[i] == results[i];
    }
  }

  /** Once the loop has stopped on a prefix, later connections change nothing. */
  lemma {:induction false} AbortedStays(results: seq<Result<DisplayRow, Fault>>, k: nat)
    requires k <= |results|
    requires Collect(results[..k]).Aborted?
    ensures Collect(results) == Collect(results[..k])
  {
    if k < |results| {
      var init := results[..|results| - 1];
      assert init[..k] == results[..k];
      AbortedStays(init, k);
    } else {
      assert results[..k] == results;
    }
  }

  /** One more turn of the loop, after a prefix it has listed completely. */
  lemma CollectStep(results: seq<Result<DisplayRow, Fault>>, i: nat)
    requires i < |results| && Collect(results[..i]).Listed?
    ensures Collect(results[..i + 1]) ==
      match results[i]
      case Ok(row) => Listed(Collect(results[..i]).rows + [row])
      case Err(f) => Aborted(Collect(results[..i]).rows, f)
  {
    assert results[..i + 1][..i] == results[..i];
  }

  lemma FilledRowsAppend(rows: seq<DisplayRow>, row: DisplayRow)
    ensures FilledRows(rows + [row]) == FilledRows(rows) + [Filled(row)]
  {
  }

  /** A missing or empty `connections` list, and only that, ends with the
      single merged row carrying the "no connections found" message. */
  lemma PlaceholderWhenNoConnections(data: Response)
    ensures Display(data).spanned <==> data.connections.None? || |data.connections.value| == 0
    ensures Display(data).spanned ==>
      |Display(data).cells| == 1 && Display(data).cells[0][0] == Some(NoConnections) &&
      (forall c :: 1 <= c < Columns ==> Display(data).cells[0][c].None?) &&
      Display(data).fault.None?
  {
  }

  /** With connections that all derive, the table holds one row per
      connection, in input order, and nothing escapes. */
  lemma OneRowPerConnection(data: Response)
    requires data.connections.Some? && |data.connections.value| > 0
    requires forall i :: 0 <= i < |data.connections.value| ==> RowFor(data.connections.value[i]).Ok?
    ensures var connections, shown := data.connections.value, Display(data);
      |shown.cells| == |connections| && !shown.spanned && shown.fault.None? &&
      forall i, c :: 0 <= i < |connections| && 0 <= c < Columns ==>
        shown.cells[i][c] == Some(RowFor(connections[i]).value.Cells()[c])
  {
    CollectSpec(Derived(data.connections.value));
  }

  /** When connection k is the first to raise, its exception escapes, the
      rows before it are intact and its own row stays blank and last. */
  lemma FirstFaultLeavesBlankRow(data: Response, k: nat)
    requires data.connections.Some? && k < |data.connections.value|
    requires forall i :: 0 <= i < k ==> RowFor(data.connections.value[i]).Ok?
    requires RowFor(data.connections.value[k]).Err?
    ensures var connections, shown := data.connections.value, Display(data);
      |shown.cells| == k + 1 && !shown.spanned &&
      shown.fault == Some(RowFor(connections[k]).error) &&
      shown.cells[k] == BlankRow &&
      forall i, c :: 0 <= i < k && 0 <= c < Columns ==>
        shown.cells[i][c] == Some(RowFor(connections[i]).value.Cells()[c])
  {
    hide RowFor;
    var results := Derived(data.connections.value);
    CollectSpec(results);
    assert results[k].Err?;
  }

  /** Every row the table ends with has exactly the thirteen columns. */
  lemma EveryRowFullWidth(data: Response)
    ensures forall i :: 0 <= i < |Display(data).cells| ==> |Display(data).cells[i]| == Columns
  {
  }

  /** Setting all thirteen items of a row leaves exactly the row's strings, whatever it held. */
  lemma OverwrittenRow(r: seq<Option<string>>, row: DisplayRow)
    requires |r| == Columns
    ensures r[0 := Some(row.date)][1 := Some(row.departure)][2 := Some(row.arrival)]
             [3 := Some(row.duration)][4 := Some(row.price)][5 := Some(row.company)]
             [6 := Some(row.number)][7 := Some(row.departureType)][8 := Some(row.name)]
             [9 := Some(row.daysOfOperation)][10 := Some(row.validity)][11 := Some(row.lengthKm)]
             [12 := Some(row.services)] == Filled(row)
  {
  }

  /** What the network layer hands back: a decoded body, or the text of the
      `RequestException` that `requests` raised. */
  datatype Reply = Received(data: Response) | RequestFailed(message: string)

  class Table {
    var cells: seq<seq<Option<string>>>
    var spanned: bool

    ghost predicate Valid()
      reads this
    {
      (forall i :: 0 <= i < |cells| ==> |cells[i]| == Columns) &&
      (spanned ==> |cells| > 0)
    }

    /** A new table has no rows and no merged cells. */
    constructor ()
      ensures Valid() && cells == [] && !spanned
    {
      cells := [];
      spanned := false;
    }

    /** `setRowCount(n)`: rows beyond n are dropped with their items, missing
        rows are added blank; the merge of row 0 goes with row 0. */
    method SetRowCount(n: nat)
      requires Valid()
      modifies this
      ensures Valid()
      ensures cells == if n <= |old(cells)| then old(cells)[..n]
                       else old(cells) + seq(n - |old(cells)|, _ => BlankRow)
      ensures spanned == (old(spanned) && n > 0)
    {
      if n <= |cells| {
        cells := cells[..n];
      } else {
        cells := cells + seq(n - |cells|, _ => BlankRow);
      }
      spanned := spanned && n > 0;
    }

    /** `insertRow(rowCount())`: a blank row at the bottom. */
    method AppendRow()
      requires Valid()
      modifies this
      ensures Valid()
      ensures cells == old(cells) + [BlankRow] && spanned == old(spanned)
    {
      cells := cells + [BlankRow];
    }

    /** `setSpan(0, 0, 1, 13)`: row 0 merged across every column. */
    method SpanFirstRow()
      requires Valid() && |cells| > 0
      modifies this
      ensures Valid()
      ensures cells == old(cells) && spanned
    {
      spanned := true;
    }

    /** `setItem(row, column, QTableWidgetItem(text))`; a position outside
        the table is ignored. */
    method SetItem(row: nat, column: nat, text: string)
      requires Valid()
      modifies this
      ensures Valid() && |cells| == |old(cells)|
      ensures if row < |old(cells)| && column < Columns
              then cells == old(cells)[row := old(cells)[row][column := Some(text)]]
              else cells == old(cells)
      ensures spanned == old(spanned)
    {
      if row < |cells| && column < Columns {
        cells := cells[row := cells[row][column := Some(text)]];
      }
    }

    /** Lines 116-128: the thirteen items of one row. */
    method WriteRow(position: nat, row: DisplayRow)
      requires Valid() && position < |cells|
      modifies this
      ensures Valid()
      ensures cells == old(cells)[position := Filled(row)] && spanned == old(spanned)
    {
      ghost var before := cells[position];
      SetItem(position, 0, row.date);
      SetItem(position, 1, row.departure);
      SetItem(position, 2, row.arrival);
      SetItem(position, 3, row.duration);
      SetItem(position, 4, row.price);
      SetItem(position, 5, row.company);
      SetItem(position, 6, row.number);
      SetItem(position, 7, row.departureType);
      SetItem(position, 8, row.name);
      SetItem(position, 9, row.daysOfOperation);
      SetItem(position, 10, row.validity);
      SetItem(position, 11, row.lengthKm);
      SetItem(position, 12, row.services);
      OverwrittenRow(before, row);
    }

    /** `nayta_aikataulut(data)`: empties the table, then shows either the
        "no connections found" row or one row per connection; an exception
        raised while deriving a row escapes as `fault`. */
    method Render(data: Response) returns (fault: Option<Fault>)
      requires Valid()
      modifies this
      ensures Valid()
      ensures Rendering(cells, spanned, fault) == Display(data)
    {
      SetRowCount(0);
      if data.connections.None? || |data.connections.value| == 0 {
        SetRowCount(1);
        SpanFirstRow();
        SetItem(0, 0, NoConnections);
        return None;
      }
      fault := ListRows(data.connections.value);
    }

    /** Lines 90-128: one row per connection, until a connection raises. */
    method ListRows(connections: seq<Connection>) returns (fault: Option<Fault>)
      requires Valid() && cells == [] && !spanned
      modifies this
      ensures Valid()
      ensures Rendering(cells, spanned, fault) == Listing(Collect(Derived(connections)))
    {
      hide RowFor;
      ghost var results := Derived(connections);
      for i := 0 to |connections|
        invariant Valid() && !spanned
        invariant Collect(results[..i]).Listed?
        invariant cells == FilledRows(Collect(results[..i]).rows)
      {
        var position := |cells|;
        AppendRow();
        var derived := RowFor(connections[i]);
        CollectStep(results, i);
        if derived.Err? {
          AbortedStays(results, i + 1);
          return Some(derived.error);
        }
        FilledRowsAppend(Collect(results[..i]).rows, derived.value);
        WriteRow(position, derived.value);
      }
      assert results[..|connections|] == results;
      return None;
    }

    /** Lines 76-79: the request failed, so row 0 becomes the merged error
        row. Only rows after the first are dropped: row 0 keeps whatever
        items it already had, under the merge, and column 0 is overwritten. */
    method ShowError(message: string)
      requires Valid()
      modifies this
      ensures Valid()
      ensures cells == [(if |old(cells)| == 0 then BlankRow else old(cells)[0])[0 := Some(SearchFailed + message)]]
      ensures spanned
    {
      SetRowCount(1);
      SpanFirstRow();
      SetItem(0, 0, SearchFailed + message);
    }

    /** `hae_aikataulut` after the request: a failed request shows its
        message, a received body is rendered and whatever it raises escapes. */
    method Search(reply: Reply) returns (fault: Option<Fault>)
      requires Valid()
      modifies this
      ensures Valid()
      ensures reply.Received? ==> Rendering(cells, spanned, fault) == Display(reply.data)
      ensures reply.RequestFailed? ==>
        fault.None? && spanned &&
        cells == [(if |old(cells)| == 0 then BlankRow else old(cells)[0])[0 := Some(SearchFailed + reply.message)]]
    {
      match reply
      case Received(data) =>
        fault := Render(data);
      case RequestFailed(message) =>
        ShowError(message);
        fault := None;
    }
  }
}
