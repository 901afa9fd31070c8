/**
 * The remote spreadsheet, reduced to what the application uses of it: a
 * worksheet is an ordered table of rows, each row an ordered sequence of
 * cell texts. Rows are numbered from 1 and columns from 1, as in the
 * spreadsheet service; the functions over plain tables index from 0.
 */
module Sheet {
  import opened Wrappers
  import Text

  type Row = seq<string>
  type Table = seq<Row>

  /**
   * The lookup `find(value)` with no column restriction: the 0-based index
   * of the first row that has a cell equal to `value`, in any column.
   */
  function FirstRowWith(t: Table, value: string): (r: Option<nat>)
    ensures r.Some? ==> r.value < |t| && value in t[r.value]
    ensures r.Some? ==> forall k :: 0 <= k < r.value ==> value !in t[k]
    ensures r.None? <==> forall k :: 0 <= k < |t| ==> value !in t[k]
  {
    if t == [] then None
    else if value in t[0] then Some(0)
    else match FirstRowWith(t[1..], value)
      case None => None
      case Some(k) => Some(k + 1)
  }

  /** `t` with the row at 0-based index `k` taken out. */
  function DeleteAt(t: Table, k: nat): (r: Table)
    requires k < |t|
    ensures |r| == |t| - 1
    ensures forall i :: 0 <= i < k ==> r[i] == t[i]
    ensures forall i :: k <= i < |r| ==> r[i] == t[i + 1]
  {
    t[..k] + t[k + 1..]
  }

  /**
   * How reading a worksheet ended: no service client or worksheet handle at
   * all, an exception while opening or reading, or the rows it returned.
   */
  datatype Source = NoClient | ReadFailed | Read(data: Table)

  /** `n` empty cells. */
  function Blanks(n: nat): (r: Row)
    ensures |r| == n && forall i :: 0 <= i < n ==> r[i] == ""
  {
    if n == 0 then [] else Blanks(n - 1) + [""]
  }

  /**
   * Writing `v` into 1-based column `c` of a row: the cell is replaced, and a
   * row too short for it is first padded with empty cells.
   */
  function SetCell(row: Row, c: nat, v: string): (r: Row)
    requires 1 <= c
    ensures |r| == if c <= |row| then |row| else c
    ensures r[c - 1] == v
    ensures forall i :: 0 <= i < |r| && i != c - 1 ==> r[i] == (if i < |row| then row[i] else "")
  {
    if c <= |row| then row[c - 1 := v] else row + Blanks(c - 1 - |row|) + [v]
  }

  /**
   * A row as `row_values` returns it: the trailing empty cells are dropped,
   * so the result ends in a non-empty cell or is empty.
   */
  function TrimBlanks(row: Row): (r: Row)
    ensures |r| <= |row| && r == row[..|r|]
    ensures r == [] || r[|r| - 1] != ""
    ensures forall i :: |r| <= i < |row| ==> row[i] == ""
  {
    if row != [] && row[|row| - 1] == "" then TrimBlanks(row[..|row| - 1]) else row
  }

  /**
   * The trimmed row has a second cell exactly when some cell after the
   * first is non-empty: a row whose cells after the name are all blank
   * comes back with the name alone.
   */
  lemma SecondCellKept(row: Row)
    ensures |TrimBlanks(row)| >= 2 <==> exists i :: 1 <= i < |row| && row[i] != ""
  {
    var r := TrimBlanks(row);
    if |r| >= 2 {
      assert row[|r| - 1] == r[|r| - 1] != "";
    }
  }

  /** The elements of `s` that satisfy `p`, in their original order. */
  function Filter<T>(s: seq<T>, p: T -> bool): (r: seq<T>)
    ensures |r| <= |s|
    ensures forall i :: 0 <= i < |r| ==> r[i] in s && p(r[i])
    ensures forall i :: 0 <= i < |s| && p(s[i]) ==> s[i] in r
  {
    if s == [] then []
    else if p(s[0]) then [s[0]] + Filter(s[1..], p)
    else Filter(s[1..], p)
  }

  /** One step of the filter: the first element is kept iff it satisfies `p`. */
  lemma FilterUnfold<T>(s: seq<T>, p: T -> bool)
    requires s != []
    ensures Filter(s, p) == if p(s[0]) then [s[0]] + Filter(s[1..], p) else Filter(s[1..], p)
  {
  }

  /** Filtering a concatenation filters each part: the kept elements keep their order. */
  lemma {:induction false} FilterAppend<T>(a: seq<T>, b: seq<T>, p: T -> bool)
    ensures Filter(a + b, p) == Filter(a, p) + Filter(b, p)
  {
    if a == [] {
      assert a + b == b;
    } else {
      assert (a + b)[1..] == a[1..] + b;
      FilterAppend(a[1..], b, p);
    }
  }

  /** Filtering with a predicate that every element meets keeps everything. */
  lemma {:induction false} FilterAll<T>(s: seq<T>, p: T -> bool)
    requires forall i :: 0 <= i < |s| ==> p(s[i])
    ensures Filter(s, p) == s
  {
    if s != [] {
      FilterAll(s[1..], p);
    }
  }

  /**
   * The worksheet handle of the spreadsheet service, holding the rows it
   * would return from `get_all_values()`. Its methods are the row-level
   * writes the application issues.
   */
  class Worksheet {
    var rows: Table

    constructor (initial: Table)
      ensures rows == initial
    {
      rows := initial;
    }

    /** `find(value)`: the 1-based number of the first row with a cell equal to `value`. */
    function Find(value: string): (r: Option<nat>)
      reads this
      ensures r.Some? ==> 1 <= r.value <= |rows| && value in rows[r.value - 1]
      ensures r.Some? ==> forall k :: 0 <= k < r.value - 1 ==> value !in rows[k]
      ensures r.None? <==> forall k :: 0 <= k < |rows| ==> value !in rows[k]
    {
      match FirstRowWith(rows, value)
      case None => None
      case Some(k) => Some(k + 1)
    }

    /** `row_values(n)`: row `n` without its trailing empty cells; a row past the data is empty. */
    function RowValues(n: nat): (r: Row)
      reads this
      ensures r != [] ==> 1 <= n <= |rows| && r == TrimBlanks(rows[n - 1])
    {
      if 1 <= n <= |rows| then TrimBlanks(rows[n - 1]) else []
    }

    /** `append_row(row)`: the row goes after the last one. */
    method AppendRow(row: Row)
      modifies this
      ensures rows == old(rows) + [row]
    {
      rows := rows + [row];
    }

    /** `delete_row(n)`: row number `n` disappears, the rows below move up. */
    method DeleteRow(n: nat)
      requires 1 <= n <= |rows|
      modifies this
      ensures rows == DeleteAt(old(rows), n - 1)
    {
      rows := DeleteAt(rows, n - 1);
    }

    /** `update_cell(n, c, v)`: cell (n, c) becomes `v`; nothing else changes. */
    method UpdateCell(n: nat, c: nat, v: string)
      requires 1 <= n <= |rows| && 1 <= c
      modifies this
      ensures rows == old(rows)[n - 1 := SetCell(old(rows)[n - 1], c, v)]
    {
      rows := rows[n - 1 := SetCell(rows[n - 1], c, v)];
    }
  }

  /** The path segment that precedes a spreadsheet id in its URL. */
  const Marker: string := "/d/"

  /** The URL form under which new spreadsheets are published. */
  const UrlPrefix: string := "https://docs.google.com/spreadsheets/d/"

  function SheetUrl(id: string): string {
    UrlPrefix + id
  }

  /** `/d/` starts at index `i` of `s`. */
  predicate MarkerAt(s: string, i: nat) {
    Text.OccursAt(Marker, s, i)
  }

  /**
   * In a published URL the only `/d/` is the one ending the prefix, at index
   * 36; whatever the id is, no earlier index starts one.
   */
  lemma {:induction false} SheetUrlMarker(id: string)
    ensures |UrlPrefix| == 39
    ensures MarkerAt(SheetUrl(id), 36)
    ensures forall j :: 0 <= j < 36 ==> !MarkerAt(SheetUrl(id), j)
  {
    var url := SheetUrl(id);
    assert url[36..39] == UrlPrefix[36..39] == Marker;
    forall j | 0 <= j < 36 ensures !MarkerAt(url, j) {
      var w := UrlPrefix[j..j + 3];
      assert url[j..j + 3] == w;
      assert w[0] == UrlPrefix[j] && w[1] == UrlPrefix[j + 1] && w[2] == UrlPrefix[j + 2];
      if UrlPrefix[j] == '/' {
        assert j == 6 || j == 7 || j == 23;
        if j == 6 {
          assert w[1] == '/' != Marker[1];
        } else if j == 7 {
          assert w[2] == 'o' != Marker[2];
        } else {
          assert w[1] == 's' != Marker[1];
        }
      } else {
        assert w[0] != Marker[0];
      }
    }
  }
}
