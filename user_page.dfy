/**
 * The user's side: filing a material request (validated, then appended to
 * the request worksheet as one row), listing the user's own requests,
 * offering the inventory's material names, and listing the inventory.
 */
module UserPage {
  import opened Wrappers
  import opened Sheet
  import opened Text
  import opened Dialogs

  /** The first entry of the material box, also what it shows when nothing was chosen. */
  const Placeholder: string := "Type to search..."

  const NeedMaterial: string := "Please enter a material name"
  const NeedQuantity: string := "Please enter a quantity"
  const NeedNumber: string := "Quantity must be a number"
  const RequestAdded: string := "Material request added successfully!"

  /**
   * The error `save_material` stops at, checked in this order: no material
   * (or the placeholder), no quantity, a quantity that does not parse as a
   * number. `parsesAsNumber` stands for Python's `float()` succeeding.
   */
  function RequestError(material: string, quantity: string, parsesAsNumber: string -> bool): Option<string> {
    if material == "" || material == Placeholder then Some(NeedMaterial)
    else if quantity == "" then Some(NeedQuantity)
    else if !parsesAsNumber(quantity) then Some(NeedNumber)
    else None
  }

  /** The ledger row of a request: email, material, quantity, date, and the notes only when given. */
  function RequestRow(email: string, material: string, quantity: string, date: string, notes: string): Row {
    [email, material, quantity, date] + (if notes != "" then [notes] else [])
  }

  /** What `save_material` does to the request rows. */
  function SaveMaterialEffect(t: Table, email: string, material: string, quantity: string, date: string,
                              notes: string, parsesAsNumber: string -> bool): Effect
  {
    match RequestError(material, quantity, parsesAsNumber)
    case Some(message) => Effect(t, Error(message))
    case None => Effect(t + [RequestRow(email, material, quantity, date, notes)], Info(RequestAdded))
  }

  /**
   * `save_material` against the request worksheet: the checks run first and
   * a rejected request never touches the worksheet; an accepted one is
   * appended as exactly one row.
   */
  method SaveMaterial(sheet: Worksheet, email: string, material: string, quantity: string, date: string,
                      notes: string, parsesAsNumber: string -> bool) returns (notice: Notice)
    modifies sheet
    ensures Effect(sheet.rows, notice) == SaveMaterialEffect(old(sheet.rows), email, material, quantity, date, notes, parsesAsNumber)
  {
    if material == "" || material == Placeholder {
      return Error(NeedMaterial);
    }
    if quantity == "" {
      return Error(NeedQuantity);
    }
    if !parsesAsNumber(quantity) {
      return Error(NeedNumber);
    }
    var row := [email, material, quantity, date];
    if notes != "" {
      row := row + [notes];
    }
    assert row == RequestRow(email, material, quantity, date, notes);
    sheet.AppendRow(row);
    notice := Info(RequestAdded);
  }

  /**
   * The checks in order: the material comes first, whatever the quantity;
   * then the quantity's presence; then its form. A rejection leaves the
   * ledger as it was; an acceptance appends exactly one row.
   */
  lemma SaveMaterialOutcome(t: Table, email: string, material: string, quantity: string, date: string,
                            notes: string, parsesAsNumber: string -> bool)
    ensures var e := SaveMaterialEffect(t, email, material, quantity, date, notes, parsesAsNumber);
            && (material == "" || material == Placeholder ==> e == Effect(t, Error(NeedMaterial)))
            && (material != "" && material != Placeholder && quantity == "" ==> e == Effect(t, Error(NeedQuantity)))
            && ((material != "" && material != Placeholder && quantity != "" && !parsesAsNumber(quantity))
                ==> e == Effect(t, Error(NeedNumber)))
            && (e.notice.Error? <==> e.rows == t)
            && (e.notice.Info? <==> |e.rows| == |t| + 1)
            && (e.notice.Info? ==> e.rows[..|t|] == t && e.rows[|t|][..3] == [email, material, quantity])
  {
  }

  /** The rows of the user's own requests: two or more cells and the first equal to the email. */
  function MyRequests(rows: Table, email: string): (mine: Table)
    ensures |mine| <= |rows|
    ensures forall i :: 0 <= i < |mine| ==> mine[i] in rows && |mine[i]| >= 2 && mine[i][0] == email
    ensures forall i :: 0 <= i < |rows| && |rows[i]| >= 2 && rows[i][0] == email ==> rows[i] in mine
  {
    Filter(rows, (row: Row) => |row| >= 2 && row[0] == email)
  }

  /** The filter keeps the worksheet's order: it distributes over concatenation. */
  lemma MyRequestsAppend(a: Table, b: Table, email: string)
    ensures MyRequests(a + b, email) == MyRequests(a, email) + MyRequests(b, email)
  {
    FilterAppend(a, b, (row: Row) => |row| >= 2 && row[0] == email);
  }

  /**
   * A request accepted for an email shows up at the end of that email's
   * list, and nobody else's list changes.
   */
  lemma {:induction false} SavedRequestListed(t: Table, email: string, other: string, material: string, quantity: string,
                                              date: string, notes: string, parsesAsNumber: string -> bool)
    requires RequestError(material, quantity, parsesAsNumber).None?
    requires other != email
    ensures var rows := SaveMaterialEffect(t, email, material, quantity, date, notes, parsesAsNumber).rows;
            MyRequests(rows, email) == MyRequests(t, email) + [RequestRow(email, material, quantity, date, notes)]
            && MyRequests(rows, other) == MyRequests(t, other)
  {
    var row := RequestRow(email, material, quantity, date, notes);
    MyRequestsAppend(t, [row], email);
    MyRequestsAppend(t, [row], other);
    assert row[0] == email;
  }

  /** One line of the user's request list. */
  datatype RequestLine = RequestLine(material: string, quantity: string, date: string)

  /** The cells a line shows; a missing cell shows as "Unknown". */
  function Line(row: Row): RequestLine {
    RequestLine(if |row| > 1 then row[1] else "Unknown",
                if |row| > 2 then row[2] else "Unknown",
                if |row| > 3 then row[3] else "Unknown")
  }

  /** A filed request lists back as exactly what was filed: its material, quantity and date. */
  lemma RequestRowListsBack(email: string, material: string, quantity: string, date: string, notes: string)
    ensures Line(RequestRow(email, material, quantity, date, notes)) == RequestLine(material, quantity, date)
  {
    var row := RequestRow(email, material, quantity, date, notes);
    assert row[1] == row[..4][1] == material;
    assert row[2] == row[..4][2] == quantity;
    assert row[3] == row[..4][3] == date;
  }

  function Lines(rows: Table): (lines: seq<RequestLine>)
    ensures |lines| == |rows| && forall i :: 0 <= i < |rows| ==> lines[i] == Line(rows[i])
  {
    if rows == [] then [] else [Line(rows[0])] + Lines(rows[1..])
  }

  const CannotConnect: string := "Cannot connect to Google Sheets"

  /**
   * What the request list shows: the connection error dialog instead of the
   * window, an "Error: ..." line, "No data available", "You have no material
   * requests", or the lines themselves.
   */
  datatype MyRequestsView =
    | NoConnection(message: string)
    | ReadError
    | NoData
    | NoRequestsYet
    | RequestLines(lines: seq<RequestLine>)

  /**
   * `view_my_requests`: a missing request worksheet stops it with the
   * connection error before any window opens; a read that raises shows the
   * error line; an empty worksheet shows "No data available"; no row of the
   * user's shows "You have no material requests"; otherwise one line per
   * own row, in order.
   */
  function MyRequestsListing(src: Source, email: string): (v: MyRequestsView)
    ensures src.NoClient? <==> v == NoConnection(CannotConnect)
    ensures src.ReadFailed? <==> v == ReadError
    ensures src == Read([]) <==> v == NoData
    ensures v == NoRequestsYet <==> src.Read? && src.data != [] && MyRequests(src.data, email) == []
    ensures v.RequestLines? <==> src.Read? && MyRequests(src.data, email) != []
    ensures v.RequestLines? ==> v.lines == Lines(MyRequests(src.data, email)) && |v.lines| > 0
  {
    match src
    case NoClient => NoConnection(CannotConnect)
    case ReadFailed => ReadError
    case Read(rows) =>
      if rows == [] then NoData
      else
        var mine := MyRequests(rows, email);
        if mine == [] then NoRequestsYet else RequestLines(Lines(mine))
  }

  /** The non-empty first cells of the rows, in order, duplicates kept. */
  function FirstCells(rows: Table): (names: seq<string>)
    ensures |names| <= |rows|
    ensures forall j :: 0 <= j < |names| ==> names[j] != "" && exists i :: 0 <= i < |rows| && |rows[i]| > 0 && rows[i][0] == names[j]
    ensures forall i :: 0 <= i < |rows| && |rows[i]| > 0 && rows[i][0] != "" ==> rows[i][0] in names
  {
    if rows == [] then []
    else
      var rest := FirstCells(rows[1..]);
      assert forall i :: 1 <= i < |rows| ==> rows[i] == rows[1..][i - 1];
      if |rows[0]| > 0 && rows[0][0] != "" then [rows[0][0]] + rest else rest
  }

  /** First cells keep the worksheet's order: they distribute over concatenation. */
  lemma {:induction false} FirstCellsAppend(a: Table, b: Table)
    ensures FirstCells(a + b) == FirstCells(a) + FirstCells(b)
  {
    if a != [] {
      assert (a + b)[1..] == a[1..] + b;
      FirstCellsAppend(a[1..], b);
    } else {
      assert a + b == b;
    }
  }

  /**
   * The choices of the material box: the placeholder, then the material
   * names of the inventory. An inventory that could not be read (None)
   * offers the placeholder alone.
   */
  function MaterialOptions(inventory: Option<Table>): (options: seq<string>)
    ensures |options| >= 1 && options[0] == Placeholder
    ensures inventory.None? ==> options == [Placeholder]
    ensures inventory.Some? ==> options[1..] == FirstCells(inventory.value)
  {
    match inventory
    case None => [Placeholder]
    case Some(rows) => [Placeholder] + FirstCells(rows)
  }

  /** One entry of the user's inventory list. */
  datatype Stock = Stock(name: string, quantity: string)

  /**
   * The user's inventory list: the listing unpacks each row into exactly
   * (name, quantity); the first row of another width raises, which ends the
   * listing with an error line after the entries already shown.
   */
  datatype StockView = StockError | NoStock | StockList(items: seq<Stock>, failed: bool)

  function StockEntries(rows: Table, needle: string): (r: (seq<Stock>, bool))
    ensures r.1 <==> exists i :: 0 <= i < |rows| && |rows[i]| != 2
    ensures |r.0| <= |rows|
  {
    if rows == [] then ([], false)
    else if |rows[0]| != 2 then ([], true)
    else
      var rest := StockEntries(rows[1..], needle);
      assert forall i :: 1 <= i < |rows| ==> rows[i] == rows[1..][i - 1];
      if IsSubstring(needle, Lower(rows[0][0])) then ([Stock(rows[0][0], rows[0][1])] + rest.0, rest.1)
      else rest
  }

  /**
   * `update_inventory` in the user's inventory window. There is no check
   * for a missing worksheet: calling the read on it raises like any failed
   * read, and either way only the "Error: ..." line is shown.
   */
  function StockListing(src: Source, search: string): (v: StockView)
    ensures v == StockError <==> !src.Read?
    ensures v == NoStock <==> src == Read([])
    ensures v.StockList? <==> src.Read? && src.data != []
    ensures v.StockList? ==> (v.items, v.failed) == StockEntries(src.data, Lower(search))
  {
    match src
    case NoClient => StockError
    case ReadFailed => StockError
    case Read(rows) =>
      if rows == [] then NoStock
      else
        var r := StockEntries(rows, Lower(search));
        StockList(r.0, r.1)
  }

  /**
   * The entries shown are those of the rows before the first row that is not
   * exactly two cells wide: rows after it are never reached.
   */
  lemma {:induction false} StockStopsAtBadRow(good: Table, bad: Row, rest: Table, needle: string)
    requires forall i :: 0 <= i < |good| ==> |good[i]| == 2
    requires |bad| != 2
    ensures StockEntries(good + [bad] + rest, needle) == (StockEntries(good, needle).0, true)
  {
    if good != [] {
      assert (good + [bad] + rest)[1..] == good[1..] + [bad] + rest;
      StockStopsAtBadRow(good[1..], bad, rest, needle);
    } else {
      assert good + [bad] + rest == [bad] + rest;
    }
  }

  /** The search test of the inventory list: the lowered search text occurs in the lowered name. */
  function NameMatches(needle: string): Row -> bool {
    (row: Row) => |row| > 0 && IsSubstring(needle, Lower(row[0]))
  }

  /** Entry `i` shows the name and quantity of row `i`, for every `i`. */
  predicate ShowsRows(entries: seq<Stock>, rows: Table) {
    && |entries| == |rows|
    && forall i :: 0 <= i < |rows| ==> |rows[i]| == 2 && rows[i][0] == entries[i].name && rows[i][1] == entries[i].quantity
  }

  lemma ShowsRowsCons(e: Stock, row: Row, entries: seq<Stock>, rows: Table)
    requires ShowsRows(entries, rows) && |row| == 2 && row[0] == e.name && row[1] == e.quantity
    ensures ShowsRows([e] + entries, [row] + rows)
  {
    var es := [e] + entries;
    var rs := [row] + rows;
    forall i | 1 <= i < |rs| ensures |rs[i]| == 2 && rs[i][0] == es[i].name && rs[i][1] == es[i].quantity {
      assert rs[i] == rows[i - 1] && es[i] == entries[i - 1];
    }
  }

  /**
   * With only two-cell rows nothing fails, and the entries are exactly the
   * rows whose name matches the search, in the worksheet's order.
   */
  lemma {:induction false} StockAllWellFormed(rows: Table, needle: string)
    requires forall i :: 0 <= i < |rows| ==> |rows[i]| == 2
    ensures var r := StockEntries(rows, needle);
            !r.1 && ShowsRows(r.0, Filter(rows, NameMatches(needle)))
  {
    if rows != [] {
      StockAllWellFormed(rows[1..], needle);
      StockStep(rows, needle);
    }
  }

  /** One step of the listing: the first row, two cells wide, is shown iff its name matches. */
  lemma StockStep(rows: Table, needle: string)
    requires rows != [] && |rows[0]| == 2
    requires ShowsRows(StockEntries(rows[1..], needle).0, Filter(rows[1..], NameMatches(needle)))
    ensures ShowsRows(StockEntries(rows, needle).0, Filter(rows, NameMatches(needle)))
  {
    var p := NameMatches(needle);
    var row := rows[0];
    var rest := StockEntries(rows[1..], needle).0;
    var kept := Filter(rows[1..], p);
    if p(row) {
      var e := Stock(row[0], row[1]);
      assert StockEntries(rows, needle).0 == [e] + rest by { EntriesUnfold(rows, needle); }
      assert Filter(rows, p) == [row] + kept by { FilterUnfold(rows, p); }
      ShowsRowsCons(e, row, rest, kept);
    } else {
      assert StockEntries(rows, needle).0 == rest by { EntriesUnfold(rows, needle); }
      assert Filter(rows, p) == kept by { FilterUnfold(rows, p); }
    }
  }

  lemma EntriesUnfold(rows: Table, needle: string)
    requires rows != [] && |rows[0]| == 2
    ensures StockEntries(rows, needle).0 ==
              if NameMatches(needle)(rows[0]) then [Stock(rows[0][0], rows[0][1])] + StockEntries(rows[1..], needle).0
              else StockEntries(rows[1..], needle).0
  {
  }
}
