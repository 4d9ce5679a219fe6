/**
 * The output writer: one sheet per distinct account of the processed table,
 * named by its alias when the configuration gives one, otherwise by the
 * decimal form of the account number.
 */
module Output {
  import opened Sequences
  import opened Merge

  // ------------------------------------------------------------- str(int)

  predicate IsDigit(ch: char)
  {
    '0' <= ch <= '9'
  }

  function DigitChar(d: nat): char
    requires d < 10
  {
    (d + '0' as int) as char
  }

  /** Python's str of a non-negative integer: its decimal digits, most significant first. */
  function NatToString(n: nat): (s: string)
    ensures |s| >= 1
    ensures forall i :: 0 <= i < |s| ==> IsDigit(s[i])
  {
    if n < 10 then [DigitChar(n)] else NatToString(n / 10) + [DigitChar(n % 10)]
  }

  /** Python's str of an integer. */
  function IntToString(i: int): (s: string)
    ensures |s| >= 1
    ensures s[0] == '-' <==> i < 0
    ensures forall k :: (if i < 0 then 1 else 0) <= k < |s| ==> IsDigit(s[k])
  {
    if i < 0 then "-" + NatToString(-i) else NatToString(i)
  }

  /** The value of a string of decimal digits. */
  function DigitsValue(s: string): nat
    requires forall i :: 0 <= i < |s| ==> IsDigit(s[i])
  {
    if s == [] then 0
    else
      assert IsDigit(s[|s| - 1]);
      DigitsValue(s[..|s| - 1]) * 10 + (s[|s| - 1] as int - '0' as int) as nat
  }

  /** Reads back what IntToString writes. */
  function ParseInt(s: string): int
  {
    if |s| >= 1 && s[0] == '-' && forall i :: 0 <= i < |s[1..]| ==> IsDigit(s[1..][i]) then -(DigitsValue(s[1..]) as int)
    else if forall i :: 0 <= i < |s| ==> IsDigit(s[i]) then DigitsValue(s)
    else 0
  }

  lemma {:induction false} NatToStringRoundTrip(n: nat)
    ensures DigitsValue(NatToString(n)) == n
  {
    if n >= 10 {
      NatToStringRoundTrip(n / 10);
      var s := NatToString(n);
      assert s[..|s| - 1] == NatToString(n / 10);
    }
  }

  /** The decimal form of an account number determines the number. */
  lemma IntToStringRoundTrip(i: int)
    ensures ParseInt(IntToString(i)) == i
  {
    if i < 0 {
      NatToStringRoundTrip(-i);
      var s := IntToString(i);
      assert s[1..] == NatToString(-i);
    } else {
      NatToStringRoundTrip(i);
      assert IsDigit(IntToString(i)[0]);
    }
  }

  /** Distinct account numbers have distinct decimal forms. */
  lemma IntToStringInjective(a: int, b: int)
    requires IntToString(a) == IntToString(b)
    ensures a == b
  {
    IntToStringRoundTrip(a);
    IntToStringRoundTrip(b);
  }

  // ------------------------------------------------------------ sheet names

  /** The output sheet name of an account: its alias if configured, else its decimal form. */
  function SheetName(account: int, aliases: map<string, string>): (name: string)
    ensures IntToString(account) !in aliases ==> ParseInt(name) == account
  {
    IntToStringRoundTrip(account);
    var key := IntToString(account);
    if key in aliases then aliases[key] else key
  }

  /** Two accounts without aliases never share a sheet name. */
  lemma UnaliasedNamesDistinct(a: int, b: int, aliases: map<string, string>)
    requires a != b
    requires IntToString(a) !in aliases && IntToString(b) !in aliases
    ensures SheetName(a, aliases) != SheetName(b, aliases)
  {
    if SheetName(a, aliases) == SheetName(b, aliases) {
      IntToStringInjective(a, b);
    }
  }

  // ---------------------------------------------------------------- writer

  datatype OutSheet = OutSheet(name: string, account: int, rows: seq<Row>)

  function Accounts(t: Table): set<int>
  {
    set row | row in t.rows :: row.account
  }

  /** mass_df.loc[account]: the rows of one account, in table order. */
  function RowsOf(t: Table, account: int): (r: seq<Row>)
    ensures forall row :: row in r <==> row in t.rows && row.account == account
    ensures |r| == |t.rows| <==> forall row :: row in t.rows ==> row.account == account
  {
    var ofAccount := (row: Row) => row.account == account;
    FilterShrinks(t.rows, ofAccount);
    forall row ensures row in Filter(t.rows, ofAccount) <==> row in t.rows && row.account == account {
      FilterMembership(t.rows, ofAccount, row);
    }
    Filter(t.rows, ofAccount)
  }

  function SheetAccounts(book: seq<OutSheet>): set<int>
  {
    set sheet | sheet in book :: sheet.account
  }

  lemma SheetAccountsSnoc(book: seq<OutSheet>, sheet: OutSheet)
    ensures SheetAccounts(book + [sheet]) == SheetAccounts(book) + {sheet.account}
  {
    forall x | x in book + [sheet] ensures x in book || x == sheet {}
  }

  /**
   * write_output: one sheet for each distinct account, in whatever order the
   * set of accounts is visited, holding that account's rows under its
   * resolved name.
   */
  method WriteOutput(t: Table, aliases: map<string, string>) returns (book: seq<OutSheet>)
    ensures SheetAccounts(book) == Accounts(t)
    ensures forall i, j :: 0 <= i < j < |book| ==> book[i].account != book[j].account
    ensures forall i :: 0 <= i < |book| ==>
              book[i].name == SheetName(book[i].account, aliases) && book[i].rows == RowsOf(t, book[i].account)
    ensures forall row :: row in t.rows ==> exists i :: 0 <= i < |book| && row in book[i].rows
  {
    var accounts := Accounts(t);
    var remaining := accounts;
    book := [];
    while remaining != {}
      invariant remaining <= accounts
      invariant SheetAccounts(book) == accounts - remaining
      invariant forall i, j :: 0 <= i < j < |book| ==> book[i].account != book[j].account
      invariant forall i :: 0 <= i < |book| ==>
                  book[i].name == SheetName(book[i].account, aliases) && book[i].rows == RowsOf(t, book[i].account)
      decreases remaining
    {
      var account :| account in remaining;
      var worksheetName := SheetName(account, aliases);
      var sheet := OutSheet(worksheetName, account, RowsOf(t, account));
      SheetAccountsSnoc(book, sheet);
      book := book + [sheet];
      remaining := remaining - {account};
    }
    forall row | row in t.rows ensures exists i :: 0 <= i < |book| && row in book[i].rows {
      assert row.account in SheetAccounts(book);
      var i :| 0 <= i < |book| && book[i].account == row.account;
      assert row in RowsOf(t, row.account);
    }
  }
}
