/**
 * The table pipeline applied to the per-file bill tables: concatenation,
 * date conversion and derived columns, the two row-exclusion rules, and the
 * configured column drop.
 */
module Merge {
  import opened Common
  import opened Sequences

  const FromDate := "Reading From Date"
  const ToDate := "Reading To Date"
  const Usage := "Metered Usage [kWh]"
  const DaysCol := "Days In Reading"
  const PerDayCol := "kWh Per Day"
  const ServiceCol := "Service Classification"
  const ReasonCol := "Reason Not Billed"
  const SentinelLights := "Sentinel Lights"
  const CutOffReason := "No billing as of summary billing cut off date"

  /** One bill line: the account number (the table's index) and its named fields. */
  datatype Row = Row(account: int, fields: map<string, Value>)

  /** A table: its column names in order, and its rows in order. */
  datatype Table = Table(columns: seq<string>, rows: seq<Row>)

  datatype MergeError =
    | NoObjectsToConcatenate        // no input tables
    | MissingColumn(name: string)   // a column the pipeline reads is absent
    | BadDate(column: string)       // a cell of a date column does not parse

  function Field(row: Row, name: string): Value
  {
    if name in row.fields then row.fields[name] else Missing
  }

  /** Column names are distinct and every row has exactly the table's columns. */
  predicate WellFormed(t: Table)
  {
    && Distinct(t.columns)
    && forall k :: 0 <= k < |t.rows| ==> t.rows[k].fields.Keys == set c | c in t.columns
  }

  // ----------------------------------------------------------- concatenation

  /** `cols` followed by the names of `more` it does not have yet, in order. */
  function AppendNew(cols: seq<string>, more: seq<string>): (r: seq<string>)
    ensures forall x :: x in r <==> x in cols || x in more
    ensures Distinct(cols) ==> Distinct(r)
    ensures |cols| <= |r| && r[..|cols|] == cols
    decreases |more|
  {
    if more == [] then cols
    else AppendNew(if more[0] in cols then cols else cols + [more[0]], more[1..])
  }

  /** The columns of a concatenation: each name once, in order of first appearance. */
  function UnionColumns(ts: seq<Table>): (r: seq<string>)
    ensures Distinct(r)
    ensures forall x :: x in r <==> exists i :: 0 <= i < |ts| && x in ts[i].columns
  {
    if ts == [] then []
    else
      AppendNew(UnionColumns(ts[..|ts| - 1]), ts[|ts| - 1].columns)
  }

  function AllRows(ts: seq<Table>): seq<Row>
  {
    if ts == [] then [] else AllRows(ts[..|ts| - 1]) + ts[|ts| - 1].rows
  }

  function TotalRows(ts: seq<Table>): nat
  {
    if ts == [] then 0 else TotalRows(ts[..|ts| - 1]) + |ts[|ts| - 1].rows|
  }

  /** A row widened to the given columns; the ones it lacks are Missing. */
  function Pad(row: Row, cols: seq<string>): Row
  {
    Row(row.account, map c | c in cols :: Field(row, c))
  }

  /** pd.concat: all rows of all tables, in order, over the union of their columns. */
  function Concat(ts: seq<Table>): (r: Result<Table, MergeError>)
    ensures r.Err? <==> ts == []
    ensures r.Err? ==> r.error == NoObjectsToConcatenate
    ensures r.Ok? ==> WellFormed(r.value)
  {
    if ts == [] then Err(NoObjectsToConcatenate)
    else
      var cols := UnionColumns(ts);
      var all := AllRows(ts);
      Ok(Table(cols, seq(|all|, k requires 0 <= k < |all| => Pad(all[k], cols))))
  }

  lemma {:induction false} AllRowsLength(ts: seq<Table>)
    ensures |AllRows(ts)| == TotalRows(ts)
  {
    if ts != [] {
      AllRowsLength(ts[..|ts| - 1]);
    }
  }

  /** The rows of a concatenation of two lists of tables are those of the first list, then those of the second. */
  lemma {:induction false} AllRowsAppend(a: seq<Table>, b: seq<Table>)
    ensures AllRows(a + b) == AllRows(a) + AllRows(b)
    decreases |b|
  {
    if b == [] {
      assert a + b == a;
    } else {
      assert (a + b)[..|a + b| - 1] == a + b[..|b| - 1];
      AllRowsAppend(a, b[..|b| - 1]);
    }
  }

  /** Every row of every well-formed input has only columns of the union. */
  lemma {:induction false} AllRowsColumns(ts: seq<Table>)
    requires forall i :: 0 <= i < |ts| ==> WellFormed(ts[i])
    ensures forall row, c :: row in AllRows(ts) && c in row.fields ==> c in UnionColumns(ts)
  {
    if ts != [] {
      var init := ts[..|ts| - 1];
      AllRowsColumns(init);
      forall row, c | row in AllRows(ts) && c in row.fields ensures c in UnionColumns(ts) {
        if row in AllRows(init) {
          assert c in UnionColumns(init);
          assert exists i :: 0 <= i < |init| && c in init[i].columns;
          var i :| 0 <= i < |init| && c in init[i].columns;
          assert ts[i] == init[i];
        } else {
          var last := ts[|ts| - 1];
          assert row in last.rows;
          var k :| 0 <= k < |last.rows| && last.rows[k] == row;
          assert c in last.columns;
        }
      }
    }
  }

  /** The columns of a concatenation: the first table's lead, and every table's appear. */
  lemma ConcatColumns(ts: seq<Table>)
    requires ts != []
    requires forall i :: 0 <= i < |ts| ==> WellFormed(ts[i])
    ensures var t := Concat(ts).value;
            && |ts[0].columns| <= |t.columns|
            && t.columns[..|ts[0].columns|] == ts[0].columns
            && forall x :: x in t.columns <==> exists i :: 0 <= i < |ts| && x in ts[i].columns
  {
    UnionFirst(ts);
  }

  /** Concatenation keeps every row, in order, with its account and its own fields. */
  lemma ConcatRows(ts: seq<Table>)
    requires ts != []
    requires forall i :: 0 <= i < |ts| ==> WellFormed(ts[i])
    ensures var t := Concat(ts).value;
            && |t.rows| == TotalRows(ts)
            && forall k :: 0 <= k < |t.rows| ==> SameRow(AllRows(ts)[k], t.rows[k])
  {
    AllRowsLength(ts);
    AllRowsColumns(ts);
    var t := Concat(ts).value;
    forall k | 0 <= k < |t.rows| ensures SameRow(AllRows(ts)[k], t.rows[k]) {
      assert AllRows(ts)[k] in AllRows(ts);
    }
  }

  /** Concatenation keeps the bills in order: the rows of the earlier bills come first. */
  lemma ConcatKeepsBillOrder(a: seq<Table>, b: seq<Table>, t: Table)
    requires forall i :: 0 <= i < |a| ==> WellFormed(a[i])
    requires forall i :: 0 <= i < |b| ==> WellFormed(b[i])
    requires Concat(a + b) == Ok(t)
    ensures |t.rows| == |AllRows(a)| + |AllRows(b)|
    ensures SameRows(AllRows(a), t.rows[..|AllRows(a)|])
    ensures SameRows(AllRows(b), t.rows[|AllRows(a)|..])
  {
    assert forall i :: 0 <= i < |a + b| ==> WellFormed((a + b)[i]) by {
      forall i | 0 <= i < |a + b| ensures WellFormed((a + b)[i]) {
        if i < |a| { assert (a + b)[i] == a[i]; } else { assert (a + b)[i] == b[i - |a|]; }
      }
    }
    ConcatRowsMatch(a + b);
    AllRowsAppend(a, b);
    SameRowsSplit(AllRows(a + b), AllRows(a), AllRows(b), t.rows);
  }

  lemma ConcatRowsMatch(bills: seq<Table>)
    requires bills != []
    requires forall i :: 0 <= i < |bills| ==> WellFormed(bills[i])
    ensures SameRows(AllRows(bills), Concat(bills).value.rows)
  {
    ConcatRows(bills);
    AllRowsLength(bills);
  }

  /** Each of `r` is the row of `x` at the same position, as concatenation leaves it. */
  ghost predicate SameRows(x: seq<Row>, r: seq<Row>)
  {
    |r| == |x| && forall k :: 0 <= k < |r| ==> SameRow(x[k], r[k])
  }

  /** Rows matched one to one against a concatenation split at the seam. */
  lemma SameRowsSplit(all: seq<Row>, x: seq<Row>, y: seq<Row>, r: seq<Row>)
    requires all == x + y && SameRows(all, r)
    ensures |r| == |x| + |y|
    ensures SameRows(x, r[..|x|])
    ensures SameRows(y, r[|x|..])
  {
    forall k | 0 <= k < |x| ensures SameRow(x[k], r[..|x|][k]) {
      assert all[k] == x[k];
    }
    forall j | 0 <= j < |y| ensures SameRow(y[j], r[|x|..][j]) {
      assert all[|x| + j] == y[j];
    }
  }

  /** `padded` is `orig` widened with Missing fields. */
  ghost predicate SameRow(orig: Row, padded: Row)
  {
    && padded.account == orig.account
    && (forall c :: c in orig.fields ==> c in padded.fields && padded.fields[c] == orig.fields[c])
    && (forall c :: c in padded.fields && c !in orig.fields ==> padded.fields[c] == Missing)
  }

  /** The first table's columns lead the union. */
  lemma {:induction false} UnionFirst(ts: seq<Table>)
    requires ts != [] && Distinct(ts[0].columns)
    ensures |ts[0].columns| <= |UnionColumns(ts)|
    ensures UnionColumns(ts)[..|ts[0].columns|] == ts[0].columns
  {
    if |ts| == 1 {
      assert ts[..0] == [];
      assert UnionColumns(ts) == AppendNew([], ts[0].columns);
      UnionOfOne(ts[0].columns);
    } else {
      var init := ts[..|ts| - 1];
      assert init[0] == ts[0];
      UnionFirst(init);
      var u := UnionColumns(init);
      var r := AppendNew(u, ts[|ts| - 1].columns);
      assert r[..|u|] == u;
      assert r[..|ts[0].columns|] == r[..|u|][..|ts[0].columns|];
    }
  }

  /** Appending a list to nothing keeps its first occurrences; for a list without repetitions, all of it. */
  lemma {:induction false} UnionOfOne(cols: seq<string>)
    ensures Distinct(cols) ==> AppendNew([], cols) == cols
  {
    if Distinct(cols) {
      AppendNewDistinct([], cols);
    }
  }

  lemma {:induction false} AppendNewDistinct(cols: seq<string>, more: seq<string>)
    requires Distinct(cols + more)
    ensures AppendNew(cols, more) == cols + more
    decreases |more|
  {
    if more != [] {
      assert more[0] == (cols + more)[|cols|];
      assert more[0] !in cols by {
        forall i | 0 <= i < |cols| ensures cols[i] != more[0] {
          assert cols[i] == (cols + more)[i];
        }
      }
      assert cols + more == (cols + [more[0]]) + more[1..];
      AppendNewDistinct(cols + [more[0]], more[1..]);
    }
  }

  // --------------------------------------------------------------- derivation

  predicate AllParse(rows: seq<Row>, column: string, parseDate: Value -> Option<int>)
  {
    forall k :: 0 <= k < |rows| ==> parseDate(Field(rows[k], column)).Some?
  }

  function AddColumn(cols: seq<string>, name: string): seq<string>
  {
    if name in cols then cols else cols + [name]
  }

  /** The dates of one row as day numbers, its reading length and its usage rate. */
  function DeriveRow(row: Row, parseDate: Value -> Option<int>): Row
    requires parseDate(Field(row, FromDate)).Some? && parseDate(Field(row, ToDate)).Some?
  {
    var from := parseDate(Field(row, FromDate)).value;
    var to := parseDate(Field(row, ToDate)).value;
    var days := Number((to - from) as real);
    Row(row.account,
        row.fields[FromDate := Date(from)][ToDate := Date(to)][DaysCol := days]
                  [PerDayCol := Ratio(Field(row, Usage), days)])
  }

  /**
   * Date conversion and the derived columns "Days In Reading" and
   * "kWh Per Day"; a derived column already present keeps its position,
   * a new one is appended.
   */
  function Derive(t: Table, parseDate: Value -> Option<int>): (r: Result<Table, MergeError>)
    requires WellFormed(t)
    ensures r.Ok? ==> WellFormed(r.value)
  {
    if FromDate !in t.columns then Err(MissingColumn(FromDate))
    else if !AllParse(t.rows, FromDate, parseDate) then Err(BadDate(FromDate))
    else if ToDate !in t.columns then Err(MissingColumn(ToDate))
    else if !AllParse(t.rows, ToDate, parseDate) then Err(BadDate(ToDate))
    else if Usage !in t.columns then Err(MissingColumn(Usage))
    else
      var cols := AddColumn(AddColumn(t.columns, DaysCol), PerDayCol);
      assert Distinct(cols);
      Ok(Table(cols, seq(|t.rows|, k requires 0 <= k < |t.rows| => DeriveRow(t.rows[k], parseDate))))
  }

  /** Derivation fails exactly on a missing column or an unparsable date. */
  lemma DeriveFails(t: Table, parseDate: Value -> Option<int>)
    requires WellFormed(t)
    ensures Derive(t, parseDate).Err? <==>
              || FromDate !in t.columns || ToDate !in t.columns || Usage !in t.columns
              || !AllParse(t.rows, FromDate, parseDate) || !AllParse(t.rows, ToDate, parseDate)
  {
  }

  /**
   * On success every row keeps its account and its other fields, its dates
   * become day numbers, and "Days In Reading" is the To day minus the From day.
   */
  lemma DeriveMeaning(t: Table, parseDate: Value -> Option<int>)
    requires WellFormed(t) && Derive(t, parseDate).Ok?
    ensures AllParse(t.rows, FromDate, parseDate) && AllParse(t.rows, ToDate, parseDate)
    ensures var d := Derive(t, parseDate).value;
            && |d.rows| == |t.rows|
            && (forall c :: c in t.columns ==> c in d.columns)
            && forall k :: 0 <= k < |t.rows| ==>
                 var from := parseDate(Field(t.rows[k], FromDate)).value;
                 var to := parseDate(Field(t.rows[k], ToDate)).value;
                 && d.rows[k].account == t.rows[k].account
                 && Field(d.rows[k], FromDate) == Date(from)
                 && Field(d.rows[k], ToDate) == Date(to)
                 && Field(d.rows[k], DaysCol) == Number((to - from) as real)
                 && Field(d.rows[k], PerDayCol) == Ratio(Field(t.rows[k], Usage), Number((to - from) as real))
                 && forall c :: c !in {FromDate, ToDate, DaysCol, PerDayCol} ==>
                      Field(d.rows[k], c) == Field(t.rows[k], c)
  {
    var d := Derive(t, parseDate).value;
    forall k | 0 <= k < |t.rows|
      ensures var from := parseDate(Field(t.rows[k], FromDate)).value;
              var to := parseDate(Field(t.rows[k], ToDate)).value;
              && d.rows[k].account == t.rows[k].account
              && Field(d.rows[k], FromDate) == Date(from)
              && Field(d.rows[k], ToDate) == Date(to)
              && Field(d.rows[k], DaysCol) == Number((to - from) as real)
              && Field(d.rows[k], PerDayCol) == Ratio(Field(t.rows[k], Usage), Number((to - from) as real))
              && forall c :: c !in {FromDate, ToDate, DaysCol, PerDayCol} ==>
                   Field(d.rows[k], c) == Field(t.rows[k], c)
    {
      assert d.rows[k] == DeriveRow(t.rows[k], parseDate);
      DeriveRowMeaning(t.rows[k], parseDate);
    }
  }

  /** One derived row: the dates as day numbers, the reading length, the rate, the rest untouched. */
  lemma DeriveRowMeaning(row: Row, parseDate: Value -> Option<int>)
    requires parseDate(Field(row, FromDate)).Some? && parseDate(Field(row, ToDate)).Some?
    ensures var d := DeriveRow(row, parseDate);
            var from := parseDate(Field(row, FromDate)).value;
            var to := parseDate(Field(row, ToDate)).value;
            && d.account == row.account
            && Field(d, FromDate) == Date(from)
            && Field(d, ToDate) == Date(to)
            && Field(d, DaysCol) == Number((to - from) as real)
            && Field(d, PerDayCol) == Ratio(Field(row, Usage), Number((to - from) as real))
            && forall c :: c !in {FromDate, ToDate, DaysCol, PerDayCol} ==> Field(d, c) == Field(row, c)
  {
  }

  // ---------------------------------------------------------- row exclusion

  predicate NotSentinel(row: Row)
  {
    Field(row, ServiceCol) != Text(SentinelLights)
  }

  predicate Billed(row: Row)
  {
    Field(row, ReasonCol) != Text(CutOffReason)
  }

  /** A row survives the exclusion rules. */
  predicate Kept(row: Row)
  {
    NotSentinel(row) && Billed(row)
  }

  /** The two boolean-mask selections, one after the other. */
  function Exclude(t: Table): (r: Result<Table, MergeError>)
    requires WellFormed(t)
    ensures r.Ok? ==> WellFormed(r.value)
  {
    if ServiceCol !in t.columns then Err(MissingColumn(ServiceCol))
    else
      var t1 := Table(t.columns, Filter(t.rows, NotSentinel));
      if ReasonCol !in t1.columns then Err(MissingColumn(ReasonCol))
      else
        var r := Table(t1.columns, Filter(t1.rows, Billed));
        assert forall k :: 0 <= k < |r.rows| ==> r.rows[k] in t.rows;
        Ok(r)
  }

  /** Exclusion fails exactly when a column it reads is missing. */
  lemma ExcludeFails(t: Table)
    requires WellFormed(t)
    ensures Exclude(t).Err? <==> ServiceCol !in t.columns || ReasonCol !in t.columns
  {
  }

  /** Otherwise it keeps exactly the rows that pass both rules, in their order, and the same columns. */
  lemma ExcludeMeaning(t: Table)
    requires WellFormed(t) && Exclude(t).Ok?
    ensures Exclude(t).value.columns == t.columns
    ensures Exclude(t).value.rows == Filter(t.rows, Kept)
    ensures forall row :: row in Exclude(t).value.rows <==> row in t.rows && Kept(row)
    ensures |Exclude(t).value.rows| < |t.rows| <==> exists row :: row in t.rows && !Kept(row)
  {
    FilterCompose(t.rows, NotSentinel, Billed, Kept);
    forall row ensures row in Filter(t.rows, Kept) <==> row in t.rows && Kept(row) {
      FilterMembership(t.rows, Kept, row);
    }
    FilterShrinks(t.rows, Kept);
  }

  /** Excluding a second time removes nothing more. */
  lemma ExcludeIdempotent(t: Table)
    requires WellFormed(t) && Exclude(t).Ok?
    ensures Exclude(Exclude(t).value) == Exclude(t)
  {
    var e := Exclude(t).value;
    ExcludeMeaning(t);
    ExcludeFails(e);
    ExcludeMeaning(e);
    FilterIdempotent(t.rows, Kept);
  }

  // ------------------------------------------------------------- column drop

  function NotIn(gone: set<string>): string -> bool
  {
    c => c !in gone
  }

  function NotListed(drop: set<string>): string -> bool
  {
    c => Lower(c) !in drop
  }

  /** pd.DataFrame.drop over a set of column labels. */
  function Without(t: Table, gone: set<string>): Table
  {
    Table(Filter(t.columns, NotIn(gone)),
          seq(|t.rows|, k requires 0 <= k < |t.rows| => Row(t.rows[k].account, t.rows[k].fields - gone)))
  }

  /** The names among `cols` whose lower-cased form is listed under Drop. */
  function Listed(cols: seq<string>, drop: set<string>): set<string>
  {
    set c | c in cols && Lower(c) in drop
  }

  lemma ListedSnoc(cols: seq<string>, x: string, drop: set<string>)
    ensures Lower(x) in drop ==> Listed(cols + [x], drop) == Listed(cols, drop) + {x}
    ensures Lower(x) !in drop ==> Listed(cols + [x], drop) == Listed(cols, drop)
  {
  }

  lemma ListedNone(drop: set<string>)
    ensures Listed([], drop) == {}
  {
  }

  function DropSet(t: Table, drop: set<string>): set<string>
  {
    Listed(t.columns, drop)
  }

  /** The column drop of the pipeline: nothing without a Drop section. */
  function DropColumns(t: Table, drop: Option<set<string>>): Table
  {
    if drop.None? then t else Without(t, DropSet(t, drop.value))
  }

  lemma WithoutNothing(t: Table)
    ensures Without(t, {}) == t
  {
    FilterAll(t.columns, NotIn({}));
    var w := Without(t, {});
    assert |w.rows| == |t.rows|;
    forall k | 0 <= k < |t.rows| ensures w.rows[k] == t.rows[k] {
      assert t.rows[k].fields - {} == t.rows[k].fields;
    }
  }

  /** Dropping a set of columns, then one more, is dropping them together. */
  lemma WithoutTwice(t: Table, gone: set<string>, x: string)
    ensures Without(Without(t, gone), {x}) == Without(t, gone + {x})
  {
    FilterCompose(t.columns, NotIn(gone), NotIn({x}), NotIn(gone + {x}));
    var w := Without(Without(t, gone), {x});
    var v := Without(t, gone + {x});
    assert |w.rows| == |v.rows|;
    forall k | 0 <= k < |w.rows| ensures w.rows[k] == v.rows[k] {
      assert (t.rows[k].fields - gone) - {x} == t.rows[k].fields - (gone + {x});
    }
  }

  /**
   * A column survives exactly when its lower-cased name is not listed; the
   * survivors keep their order; rows keep their accounts and the surviving fields.
   */
  lemma DropMeaning(t: Table, drop: Option<set<string>>)
    requires WellFormed(t)
    ensures var r := DropColumns(t, drop);
            && WellFormed(r)
            && (forall c :: c in r.columns <==> c in t.columns && !(drop.Some? && Lower(c) in drop.value))
            && (drop.Some? ==> r.columns == Filter(t.columns, NotListed(drop.value)))
            && |r.rows| == |t.rows|
            && forall k :: 0 <= k < |r.rows| ==>
                 r.rows[k].account == t.rows[k].account &&
                 forall c :: c in r.rows[k].fields ==> c in t.rows[k].fields && r.rows[k].fields[c] == t.rows[k].fields[c]
  {
    if drop.Some? {
      var gone := DropSet(t, drop.value);
      var r := Without(t, gone);
      forall c ensures c in r.columns <==> c in t.columns && c !in gone {
        FilterMembership(t.columns, NotIn(gone), c);
      }
      FilterCongruent(t.columns, NotIn(gone), NotListed(drop.value));
      FilterDistinct(t.columns, NotIn(gone));
    }
  }

  /** Dropping a second time with the same configuration changes nothing. */
  lemma DropIdempotent(t: Table, drop: Option<set<string>>)
    requires WellFormed(t)
    ensures DropColumns(DropColumns(t, drop), drop) == DropColumns(t, drop)
  {
    if drop.Some? {
      var r := DropColumns(t, drop);
      DropMeaning(t, drop);
      assert DropSet(r, drop.value) == {};
      WithoutNothing(r);
    }
  }

  // ---------------------------------------------------------------- pipeline

  /**
   * The bill tables after concatenation, derivation and exclusion, before
   * the column drop.
   */
  function Cleaned(bills: seq<Table>, parseDate: Value -> Option<int>): (r: Result<Table, MergeError>)
    requires forall i :: 0 <= i < |bills| ==> WellFormed(bills[i])
    ensures r.Ok? ==> WellFormed(r.value)
  {
    match Concat(bills)
      case Err(e) => Err(e)
      case Ok(merged) =>
        match Derive(merged, parseDate)
          case Err(e) => Err(e)
          case Ok(derived) => Exclude(derived)
  }

  /**
   * process: concatenate the bills, derive the date columns, exclude rows,
   * then drop the configured columns.
   */
  method Process(bills: seq<Table>, parseDate: Value -> Option<int>, drop: Option<set<string>>)
    returns (res: Result<Table, MergeError>)
    requires forall i :: 0 <= i < |bills| ==> WellFormed(bills[i])
    ensures bills == [] ==> res == Err(NoObjectsToConcatenate)
    ensures res.Err? <==> Cleaned(bills, parseDate).Err?
    ensures res.Err? ==> res.error == Cleaned(bills, parseDate).error
    ensures res.Ok? ==> res.value == DropColumns(Cleaned(bills, parseDate).value, drop)
  {
    var merged :- Concat(bills);
    var massDf :- Derive(merged, parseDate);
    massDf :- Exclude(massDf);
    assert Cleaned(bills, parseDate) == Ok(massDf);
    massDf := ApplyDrop(massDf, drop);
    return Ok(massDf);
  }

  /** One turn of the Drop loop: the label is dropped exactly when it is listed. */
  lemma DropStep(t: Table, labels: seq<string>, i: nat, drop: set<string>)
    requires i < |labels|
    ensures Lower(labels[i]) in drop ==>
              Without(Without(t, Listed(labels[..i], drop)), {labels[i]}) == Without(t, Listed(labels[..i + 1], drop))
    ensures Lower(labels[i]) !in drop ==> Listed(labels[..i + 1], drop) == Listed(labels[..i], drop)
  {
    assert labels[..i + 1] == labels[..i] + [labels[i]];
    ListedSnoc(labels[..i], labels[i], drop);
    if Lower(labels[i]) in drop {
      WithoutTwice(t, Listed(labels[..i], drop), labels[i]);
    }
  }

  /**
   * The Drop step of process: walk the column labels as they stand and drop
   * each one whose lower-cased name is listed.
   */
  method ApplyDrop(filtered: Table, drop: Option<set<string>>) returns (massDf: Table)
    ensures massDf == DropColumns(filtered, drop)
  {
    massDf := filtered;
    if drop.Some? {
      var labels := massDf.columns;
      WithoutNothing(filtered);
      assert labels[..0] == [];
      ListedNone(drop.value);
      for i := 0 to |labels|
        invariant massDf == Without(filtered, Listed(labels[..i], drop.value))
      {
        DropStep(filtered, labels, i, drop.value);
        if Lower(labels[i]) in drop.value {
          massDf := Without(massDf, {labels[i]});
        }
      }
      assert labels[..|labels|] == labels;
    }
  }

  /**
   * Before the drop: no more rows than the bills had, each one passing both
   * exclusion rules.
   */
  lemma CleanedMeaning(bills: seq<Table>, parseDate: Value -> Option<int>)
    requires forall i :: 0 <= i < |bills| ==> WellFormed(bills[i])
    ensures Cleaned(bills, parseDate).Ok? ==>
              && |Cleaned(bills, parseDate).value.rows| <= TotalRows(bills)
              && (forall row :: row in Cleaned(bills, parseDate).value.rows ==> Kept(row))
              && (|Cleaned(bills, parseDate).value.rows| < TotalRows(bills) <==>
                    exists row :: row in AllRows(bills) && !Kept(row))
  {
    if Cleaned(bills, parseDate).Err? {
      return;
    }
    var merged := Concat(bills).value;
    var derived := Derive(merged, parseDate).value;
    assert Cleaned(bills, parseDate) == Exclude(derived);
    var all := AllRows(bills);
    assert |derived.rows| == TotalRows(bills) && SameVerdicts(derived.rows, all) by {
      DerivedKeepsVerdict(bills, parseDate);
    }
    SameVerdictsFail(derived.rows, all);
    ExcludeMeaning(derived);
  }

  /** Row by row, the two lists get the same verdict under the exclusion rules. */
  ghost predicate SameVerdicts(a: seq<Row>, b: seq<Row>)
  {
    |a| == |b| && forall k :: 0 <= k < |a| ==> Kept(a[k]) == Kept(b[k])
  }

  lemma SameVerdictsFail(a: seq<Row>, b: seq<Row>)
    requires SameVerdicts(a, b)
    ensures (exists row :: row in a && !Kept(row)) <==> (exists row :: row in b && !Kept(row))
  {
    if exists row :: row in a && !Kept(row) {
      var row :| row in a && !Kept(row);
      var k :| 0 <= k < |a| && a[k] == row;
      assert b[k] in b && !Kept(b[k]);
    }
    if exists row :: row in b && !Kept(row) {
      var row :| row in b && !Kept(row);
      var k :| 0 <= k < |b| && b[k] == row;
      assert a[k] in a && !Kept(a[k]);
    }
  }

  /**
   * Concatenation and derivation keep every row's verdict under the
   * exclusion rules: the fields those rules read pass through unchanged.
   */
  lemma DerivedKeepsVerdict(bills: seq<Table>, parseDate: Value -> Option<int>)
    requires forall i :: 0 <= i < |bills| ==> WellFormed(bills[i])
    requires bills != [] && Derive(Concat(bills).value, parseDate).Ok?
    ensures var derived := Derive(Concat(bills).value, parseDate).value;
            && |derived.rows| == TotalRows(bills) == |AllRows(bills)|
            && SameVerdicts(derived.rows, AllRows(bills))
  {
    var merged := Concat(bills).value;
    var derived := Derive(merged, parseDate).value;
    ConcatRows(bills);
    AllRowsLength(bills);
    assert AllParse(merged.rows, FromDate, parseDate) && AllParse(merged.rows, ToDate, parseDate);
    assert |derived.rows| == |merged.rows|;
    forall k | 0 <= k < |derived.rows| ensures Kept(derived.rows[k]) == Kept(AllRows(bills)[k]) {
      assert derived.rows[k] == DeriveRow(merged.rows[k], parseDate);
      KeptThroughDerive(merged.rows[k], parseDate);
      KeptThroughPad(AllRows(bills)[k], merged.rows[k]);
    }
  }

  lemma KeptThroughPad(orig: Row, padded: Row)
    requires SameRow(orig, padded)
    ensures Kept(padded) == Kept(orig)
  {
  }

  lemma KeptThroughDerive(row: Row, parseDate: Value -> Option<int>)
    requires parseDate(Field(row, FromDate)).Some? && parseDate(Field(row, ToDate)).Some?
    ensures Kept(DeriveRow(row, parseDate)) == Kept(row)
  {
  }


  /**
   * What a successful run yields: a well-formed table, no more rows than the
   * bills had (strictly fewer exactly when some bill row fails an exclusion
   * rule), only rows that pass both rules, and no listed column.
   */
  lemma ProcessMeaning(bills: seq<Table>, parseDate: Value -> Option<int>, drop: Option<set<string>>)
    requires forall i :: 0 <= i < |bills| ==> WellFormed(bills[i])
    ensures Cleaned(bills, parseDate).Ok? ==>
            var r := DropColumns(Cleaned(bills, parseDate).value, drop);
            && WellFormed(r)
            && |r.rows| <= TotalRows(bills)
            && (|r.rows| < TotalRows(bills) <==> exists row :: row in AllRows(bills) && !Kept(row))
            && (forall row :: row in r.rows ==> Kept(row))
            && (drop.Some? ==> forall c :: c in r.columns ==> Lower(c) !in drop.value)
  {
    if Cleaned(bills, parseDate).Err? {
      return;
    }
    var filtered := Cleaned(bills, parseDate).value;
    CleanedMeaning(bills, parseDate);
    DropKeepsVerdicts(filtered, drop);
  }

  /**
   * Running exclusion and the column drop again on their own output removes no
   * further row or column, unless Drop lists a column exclusion reads: then the
   * second exclusion fails on the missing column.
   */
  lemma RerunExcludeAndDrop(t: Table, drop: Option<set<string>>)
    requires WellFormed(t) && Exclude(t).Ok?
    ensures var out := DropColumns(Exclude(t).value, drop);
            && WellFormed(out)
            && DropColumns(out, drop) == out
            && (Exclude(out).Err? <==>
                  drop.Some? && (Lower(ServiceCol) in drop.value || Lower(ReasonCol) in drop.value))
            && (Exclude(out).Ok? ==> Exclude(out) == Ok(out))
  {
    var e := Exclude(t).value;
    var out := DropColumns(e, drop);
    ExcludeFails(t);
    ExcludeMeaning(t);
    assert forall row :: row in e.rows ==> Kept(row);
    DropKeepsVerdicts(e, drop);
    DropMeaning(e, drop);
    DropIdempotent(e, drop);
    ExcludeFails(out);
    if Exclude(out).Ok? {
      ExcludeMeaning(out);
      FilterAll(out.rows, Kept);
    }
  }

  /** Dropping "service classification" and running exclusion again fails on the missing column. */
  lemma RerunAfterServiceDropFails(t: Table)
    requires WellFormed(t) && Exclude(t).Ok?
    ensures var out := DropColumns(Exclude(t).value, Some({"service classification"}));
            WellFormed(out) && Exclude(out).Err?
  {
    var drop := Some({"service classification"});
    assert Lower(ServiceCol) in drop.value by {
      ServiceColLowered();
    }
    RerunExcludeAndDrop(t, drop);
  }

  lemma ServiceColLowered()
    ensures Lower(ServiceCol) == "service classification"
  {
  }

  /** The column drop keeps every row, and with it every row's verdict. */
  lemma DropKeepsVerdicts(t: Table, drop: Option<set<string>>)
    requires WellFormed(t)
    requires forall row :: row in t.rows ==> Kept(row)
    ensures var r := DropColumns(t, drop);
            && WellFormed(r)
            && |r.rows| == |t.rows|
            && (forall row :: row in r.rows ==> Kept(row))
            && (drop.Some? ==> forall c :: c in r.columns ==> Lower(c) !in drop.value)
  {
    DropMeaning(t, drop);
    var r := DropColumns(t, drop);
    forall row | row in r.rows ensures Kept(row) {
      var k :| 0 <= k < |r.rows| && r.rows[k] == row;
      assert t.rows[k] in t.rows;
      KeptByFields(t.rows[k], row);
    }
  }


  /** Keeping a row depends only on the two fields the rules read. */
  lemma KeptByFields(a: Row, b: Row)
    requires Kept(a)
    requires forall c :: c in b.fields ==> c in a.fields && b.fields[c] == a.fields[c]
    ensures Kept(b)
  {
  }
}
