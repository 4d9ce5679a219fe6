/**
 * Sheet layout discovery: locating the "Line #" header and the
 * "Metered Usage [kWh]" column of an invoice sheet by value search, counting
 * the numbered billing lines below the header, and computing the region
 * handed to the spreadsheet reader.
 */
module Layout {
  import opened Common

  /** xlrd's type tag of a numeric cell. */
  const XlsFloatType: nat := 2

  const LineLabel: Value := Text("Line #")
  const UsageLabel: Value := Text("Metered Usage [kWh]")

  datatype Cell = Cell(value: Value, ctype: nat)

  /** A worksheet: `rows` is the grid, every row padded to `ncols` cells. */
  datatype Sheet = Sheet(ncols: nat, rows: seq<seq<Cell>>) {
    predicate Valid()
    {
      forall r :: 0 <= r < |rows| ==> |rows[r]| == ncols
    }
  }

  datatype Error =
    | LookupError    // find_in_sheet: no cell holds the value
    | NotABill       // get_billing_lines: no "Line #" cell (a ValueError)
    | IndexError     // get_billing_lines walked below the last row

  type Coord = (nat, nat)

  predicate Matches(s: Sheet, val: Value, r: nat, c: nat)
  {
    r < |s.rows| && c < s.ncols && c < |s.rows[r]| && s.rows[r][c].value == val
  }

  /** (r', c') comes before (r, c) in row-major order. */
  predicate Before(r': nat, c': nat, r: nat, c: nat)
  {
    r' < r || (r' == r && c' < c)
  }

  ghost predicate Occurs(s: Sheet, val: Value)
  {
    exists r: nat, c: nat :: Matches(s, val, r, c)
  }

  ghost predicate IsFirstMatch(s: Sheet, val: Value, r: nat, c: nat)
  {
    Matches(s, val, r, c) &&
    forall r': nat, c': nat :: Before(r', c', r, c) ==> !Matches(s, val, r', c')
  }

  predicate IsFloatAt(s: Sheet, r: nat, c: nat)
  {
    r < |s.rows| && c < |s.rows[r]| && s.rows[r][c].ctype == XlsFloatType
  }

  /** Rows lo .. hi-1 of column c all hold numeric cells. */
  ghost predicate FloatRun(s: Sheet, c: nat, lo: nat, hi: nat)
  {
    forall i: nat :: lo <= i < hi ==> IsFloatAt(s, i, c)
  }

  // ---------------------------------------------------------------- search

  /** The first column at or after c of row r that holds val. */
  function FindInRow(s: Sheet, val: Value, r: nat, c: nat): (res: Option<nat>)
    requires s.Valid() && r < |s.rows|
    ensures res.Some? ==> c <= res.value < s.ncols && Matches(s, val, r, res.value)
    decreases s.ncols - c
  {
    if c >= s.ncols then None
    else if s.rows[r][c].value == val then Some(c)
    else FindInRow(s, val, r, c + 1)
  }

  /** The first cell in row-major order, from row r on, that holds val. */
  function FindFrom(s: Sheet, val: Value, r: nat): (res: Option<Coord>)
    requires s.Valid()
    ensures res.Some? ==> r <= res.value.0 && Matches(s, val, res.value.0, res.value.1)
    decreases |s.rows| - r
  {
    if r >= |s.rows| then None
    else match FindInRow(s, val, r, 0)
      case Some(c) => Some((r, c))
      case None => FindFrom(s, val, r + 1)
  }

  function FirstMatch(s: Sheet, val: Value): Option<Coord>
    requires s.Valid()
  {
    FindFrom(s, val, 0)
  }

  lemma {:induction false} FindInRowSkips(s: Sheet, val: Value, r: nat, c: nat)
    requires s.Valid() && r < |s.rows|
    ensures FindInRow(s, val, r, c).None? ==> forall j: nat :: c <= j ==> !Matches(s, val, r, j)
    ensures FindInRow(s, val, r, c).Some? ==>
              forall j: nat :: c <= j < FindInRow(s, val, r, c).value ==> !Matches(s, val, r, j)
    decreases s.ncols - c
  {
    if c < s.ncols && s.rows[r][c].value != val {
      FindInRowSkips(s, val, r, c + 1);
    }
  }

  lemma {:induction false} FindFromSkips(s: Sheet, val: Value, r: nat)
    requires s.Valid()
    ensures FindFrom(s, val, r).None? ==> forall i: nat, j: nat :: r <= i ==> !Matches(s, val, i, j)
    ensures FindFrom(s, val, r).Some? ==>
              var (fr, fc) := FindFrom(s, val, r).value;
              forall i: nat, j: nat :: r <= i && Before(i, j, fr, fc) ==> !Matches(s, val, i, j)
    decreases |s.rows| - r
  {
    if r < |s.rows| {
      FindInRowSkips(s, val, r, 0);
      if FindInRow(s, val, r, 0).None? {
        FindFromSkips(s, val, r + 1);
      }
    }
  }

  /** Row-major order admits only one first occurrence. */
  lemma FirstMatchUnique(s: Sheet, val: Value, r1: nat, c1: nat, r2: nat, c2: nat)
    requires IsFirstMatch(s, val, r1, c1) && IsFirstMatch(s, val, r2, c2)
    ensures r1 == r2 && c1 == c2
  {
  }

  /**
   * FirstMatch is the row-major first occurrence, and None exactly when there
   * is none; a cell is the first occurrence exactly when FirstMatch names it.
   */
  lemma FirstMatchMeaning(s: Sheet, val: Value)
    requires s.Valid()
    ensures FirstMatch(s, val).None? <==> !Occurs(s, val)
    ensures FirstMatch(s, val).Some? ==>
              IsFirstMatch(s, val, FirstMatch(s, val).value.0, FirstMatch(s, val).value.1)
    ensures forall r: nat, c: nat :: IsFirstMatch(s, val, r, c) <==> FirstMatch(s, val) == Some((r, c))
  {
    FindFromSkips(s, val, 0);
    forall r: nat, c: nat | IsFirstMatch(s, val, r, c) ensures FirstMatch(s, val) == Some((r, c)) {
      var m := FirstMatch(s, val).value;
      FirstMatchUnique(s, val, r, c, m.0, m.1);
    }
  }

  /** find_in_sheet: nested row-major loops with an early return. */
  method FindInSheet(val: Value, s: Sheet) returns (res: Result<Coord, Error>)
    requires s.Valid()
    ensures res.Ok? ==> FirstMatch(s, val) == Some(res.value)
    ensures res.Ok? ==> IsFirstMatch(s, val, res.value.0, res.value.1)
    ensures res.Err? <==> !Occurs(s, val)
    ensures res.Err? ==> res.error == LookupError
  {
    FirstMatchMeaning(s, val);
    var row := 0;
    while row < |s.rows|
      invariant row <= |s.rows|
      invariant FindFrom(s, val, row) == FirstMatch(s, val)
    {
      var col := 0;
      while col < s.ncols
        invariant col <= s.ncols
        invariant FindInRow(s, val, row, col) == FindInRow(s, val, row, 0)
      {
        if s.rows[row][col].value == val {
          return Ok((row, col));
        }
        col := col + 1;
      }
      row := row + 1;
    }
    return Err(LookupError);
  }

  // ---------------------------------------------------------- billing lines

  /** Walking down column c from row r while the cells are numeric. */
  function RunLength(s: Sheet, r: nat, c: nat): (res: Result<nat, Error>)
    requires s.Valid() && c < s.ncols
    ensures res.Err? ==> res.error == IndexError
    decreases |s.rows| - r
  {
    if r >= |s.rows| then Err(IndexError)
    else if s.rows[r][c].ctype != XlsFloatType then Ok(0)
    else AddLines(RunLength(s, r + 1, c), 1)
  }

  function AddLines(res: Result<nat, Error>, k: nat): Result<nat, Error>
  {
    match res
      case Ok(n) => Ok(n + k)
      case Err(e) => Err(e)
  }

  /** The run below row r stops, n rows down, at a non-numeric cell inside the sheet. */
  ghost predicate RunEndsAt(s: Sheet, r: nat, c: nat, n: nat)
  {
    FloatRun(s, c, r, r + n) && r + n < |s.rows| && !IsFloatAt(s, r + n, c)
  }

  lemma {:induction false} RunLengthMeaning(s: Sheet, r: nat, c: nat)
    requires s.Valid() && c < s.ncols
    ensures forall n: nat :: RunLength(s, r, c) == Ok(n) <==> RunEndsAt(s, r, c, n)
    ensures RunLength(s, r, c).Err? <==> FloatRun(s, c, r, |s.rows|)
    decreases |s.rows| - r
  {
    if r < |s.rows| && s.rows[r][c].ctype == XlsFloatType {
      RunLengthMeaning(s, r + 1, c);
      forall n: nat ensures RunLength(s, r, c) == Ok(n) <==> RunEndsAt(s, r, c, n) {
        if n > 0 {
          assert RunEndsAt(s, r, c, n) <==> RunEndsAt(s, r + 1, c, n - 1);
        } else {
          assert !RunEndsAt(s, r, c, n);
        }
      }
    } else if r < |s.rows| {
      assert !IsFloatAt(s, r, c);
      assert !FloatRun(s, c, r, |s.rows|);
      forall n: nat | n > 0 ensures !RunEndsAt(s, r, c, n) {
        assert !IsFloatAt(s, r, c);
      }
    }
  }

  /** What get_billing_lines computes: the run below the first "Line #" cell. */
  function BillingLines(s: Sheet): Result<nat, Error>
    requires s.Valid()
  {
    match FirstMatch(s, LineLabel)
      case None => Err(NotABill)
      case Some((r, c)) => RunLength(s, r + 1, c)
  }

  /**
   * BillingLines fails with NotABill exactly when there is no "Line #" cell,
   * otherwise counts the numeric cells below the first one up to an in-sheet
   * non-numeric cell, and fails with IndexError when they run to the bottom.
   */
  lemma BillingLinesMeaning(s: Sheet)
    requires s.Valid()
    ensures BillingLines(s) == Err(NotABill) <==> !Occurs(s, LineLabel)
    ensures BillingLines(s).Ok? ==>
              var (r, c) := FirstMatch(s, LineLabel).value; RunEndsAt(s, r + 1, c, BillingLines(s).value)
    ensures BillingLines(s) == Err(IndexError) <==>
              Occurs(s, LineLabel) &&
              var (r, c) := FirstMatch(s, LineLabel).value; FloatRun(s, c, r + 1, |s.rows|)
  {
    FirstMatchMeaning(s, LineLabel);
    if FirstMatch(s, LineLabel).Some? {
      var (r, c) := FirstMatch(s, LineLabel).value;
      RunLengthMeaning(s, r + 1, c);
    }
  }

  /** get_billing_lines: find the anchor, then count numeric cells below it. */
  method GetBillingLines(s: Sheet) returns (res: Result<nat, Error>)
    requires s.Valid()
    ensures res == BillingLines(s)
    ensures res == Err(NotABill) <==> !Occurs(s, LineLabel)
    ensures res.Ok? ==> var (r, c) := FirstMatch(s, LineLabel).value; RunEndsAt(s, r + 1, c, res.value)
    ensures res == Err(IndexError) <==>
              Occurs(s, LineLabel) &&
              var (r, c) := FirstMatch(s, LineLabel).value; FloatRun(s, c, r + 1, |s.rows|)
  {
    BillingLinesMeaning(s);
    var lines := 0;
    var found := FindInSheet(LineLabel, s);
    if found.Err? {
      return Err(NotABill);
    }
    var (r0, col) := found.value;
    var row := r0 + 1;
    while row < |s.rows| && s.rows[row][col].ctype == XlsFloatType
      invariant row == r0 + 1 + lines <= |s.rows|
      invariant RunLength(s, r0 + 1, col) == AddLines(RunLength(s, row, col), lines)
    {
      row := row + 1;
      lines := lines + 1;
    }
    if row == |s.rows| {
      return Err(IndexError);
    }
    return Ok(lines);
  }

  // ---------------------------------------------------------------- layout

  /**
   * The parameters get_bill_dataframe passes to the reader: the header row,
   * the number of footer rows to skip, the columns to read (1 .. lastCol),
   * and the line column and count found on the way.
   */
  datatype BillLayout = BillLayout(header: nat, lineCol: nat, lines: nat, lastCol: nat,
                                   footer: int, useCols: seq<nat>)

  /** get_bill_dataframe, up to the call into the reader. */
  method GetBillLayout(s: Sheet) returns (res: Result<BillLayout, Error>)
    requires s.Valid()
    ensures BillingLines(s).Err? ==> res == Err(BillingLines(s).error)
    ensures BillingLines(s).Ok? && !Occurs(s, UsageLabel) ==> res == Err(LookupError)
    ensures res.Ok? <==> BillingLines(s).Ok? && Occurs(s, UsageLabel)
    ensures res.Ok? ==>
              var l := res.value;
              // the header row is the "Line #" anchor the billing lines were counted from
              && FirstMatch(s, LineLabel) == Some((l.header, l.lineCol))
              && IsFirstMatch(s, LineLabel, l.header, l.lineCol)
              && l.lines == BillingLines(s).value
              && FirstMatch(s, UsageLabel).Some? && l.lastCol == FirstMatch(s, UsageLabel).value.1
              // header, billing lines and footer account for every row of the sheet
              && l.header + 1 + l.lines + l.footer == |s.rows|
              && l.footer >= 1
              // every row between the header and the footer is a numbered billing line,
              // and the first footer row is not
              && (forall i: nat :: l.header < i < |s.rows| - l.footer ==> IsFloatAt(s, i, l.lineCol))
              && !IsFloatAt(s, |s.rows| - l.footer, l.lineCol)
              && |l.useCols| == l.lastCol
              && (forall k :: 0 <= k < l.lastCol ==> l.useCols[k] == k + 1)
  {
    var numRows := |s.rows|;
    var lines :- GetBillingLines(s);
    var anchor := FindInSheet(LineLabel, s);
    // the search that found the anchor for GetBillingLines finds it again
    assert anchor.Ok?;
    var (labelRow, lineCol) := anchor.value;
    var usage :- FindInSheet(UsageLabel, s);
    var (_, lastCol) := usage;
    var footerSize := numRows - (labelRow + 1) - lines;
    var useCols := seq(lastCol, k requires 0 <= k < lastCol => k + 1);
    return Ok(BillLayout(labelRow, lineCol, lines, lastCol, footerSize, useCols));
  }
}
