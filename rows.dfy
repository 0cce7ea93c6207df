/**
  The table of transactions: a header line followed by five-column rows, and
  the checks a row passes before it is appended.
*/
module Rows {
  import opened Outcomes
  import opened Text
  import opened Dates

  /** One line of the table, every column as text. */
  datatype Row = Row(date: string, category: string, amount: string, kind: string, description: string)

  /** The first line of every table this program creates. */
  const Header := Row("Date", "Category", "Amount", "Type", "Description")

  /** What a handler reports instead of its result: one tag per message-box error. */
  datatype Failure =
    | MissingField       // "All fields are required."
    | InvalidDate        // the date of a new row is not a calendar date in YYYY-MM-DD form
    | InvalidType        // the type of a new row is neither "Credit" nor "Debit"
    | NoTransactions     // "No transactions recorded yet.": the table does not exist
    | InvalidDateFormat  // "Invalid date format. Use YYYY-MM-DD." from the range view
    | NoSelection        // "No transaction selected."
    | Unexpected         // any other exception, shown as "An error occurred: ..."

  /** Every column holds some text. */
  predicate Filled(r: Row) {
    r.date != [] && r.category != [] && r.amount != [] && r.kind != [] && r.description != []
  }

  /** A row the add handler accepts. The amount is not examined. */
  predicate Admissible(r: Row) {
    Filled(r) && Parse(r.date).Some? && (r.kind == "Credit" || r.kind == "Debit")
  }

  /** The add handler's checks, in their order: `None` when the row is accepted. */
  function Validate(r: Row): (f: Option<Failure>)
    ensures f.None? <==> Admissible(r)
    ensures f == Some(MissingField) <==> !Filled(r)
    ensures f == Some(InvalidDate) <==> Filled(r) && Parse(r.date).None?
    ensures f == Some(InvalidType) <==> Filled(r) && Parse(r.date).Some? && r.kind != "Credit" && r.kind != "Debit"
  {
    if !Filled(r) then Some(MissingField)
    else if Parse(r.date).None? then Some(InvalidDate)
    else if r.kind != "Credit" && r.kind != "Debit" then Some(InvalidType)
    else None
  }

  /** The table after appending `r`, creating it with its header first when it is absent. */
  function Appended(present: bool, rows: seq<Row>, r: Row): seq<Row> {
    (if present then rows else [Header]) + [r]
  }

  /** The rows a dictionary reader yields: everything after the first line, which names the columns. */
  function Records(rows: seq<Row>): (r: seq<Row>)
    ensures rows != [] ==> rows == [rows[0]] + r
    ensures rows == [] ==> r == []
  {
    if rows == [] then [] else rows[1..]
  }

  /** The type column, compared case-insensitively. */
  predicate IsCredit(r: Row)
    ensures r.kind == "Credit" ==> IsCredit(r)
  {
    Lower(r.kind) == "credit"
  }

  /** No type is both: the order of the two tests does not matter. */
  predicate IsDebit(r: Row)
    ensures r.kind == "Debit" ==> IsDebit(r)
    ensures IsDebit(r) ==> !IsCredit(r)
  {
    Lower(r.kind) == "debit"
  }

  /** The row's date parses and lies in the closed interval from `lo` to `hi`. */
  predicate InWindow(r: Row, lo: Date, hi: Date)
    ensures InWindow(r, lo, hi) ==> NotAfter(lo, hi)
  {
    Parse(r.date).Some? && NotAfter(lo, Parse(r.date).value) && NotAfter(Parse(r.date).value, hi)
  }

  /**
    A table written only by the add and delete handlers: absent and empty, or
    the header followed by accepted rows.
  */
  ghost predicate Consistent(present: bool, rows: seq<Row>) {
    if !present then rows == []
    else rows != [] && rows[0] == Header && forall i :: 1 <= i < |rows| ==> Admissible(rows[i])
  }

  /** The header is not an acceptable row, so it never appears among the records. */
  lemma HeaderNotAdmissible()
    ensures !Admissible(Header)
  {
    assert !Canonical(Header.date);
  }

  /** An accepted row has a canonical date and a type that counts towards the balance. */
  lemma AdmissibleCounts(r: Row)
    requires Admissible(r)
    ensures Canonical(r.date)
    ensures IsCredit(r) <==> r.kind == "Credit"
    ensures IsDebit(r) <==> r.kind == "Debit"
    ensures IsCredit(r) || IsDebit(r)
  {
    FormatParse(r.date);
    if r.kind == "Credit" {
      assert Lower(r.kind) == "credit";
    } else {
      assert Lower(r.kind) == "debit";
    }
  }

  /** Appending an accepted row keeps the table consistent and adds exactly one record, at the end. */
  lemma AppendedConsistent(present: bool, rows: seq<Row>, r: Row)
    requires Consistent(present, rows) && Admissible(r)
    ensures Consistent(true, Appended(present, rows, r))
    ensures Records(Appended(present, rows, r)) == Records(rows) + [r]
    ensures present ==> Appended(present, rows, r)[..|rows|] == rows
  {
    var t := Appended(present, rows, r);
    if present {
      assert t[1..] == rows[1..] + [r];
    } else {
      assert t == [Header, r];
    }
  }

  /** The amount column is not checked: a row whose amount is not a number is still accepted. */
  lemma AmountNotChecked()
    ensures Validate(Row("2024-02-29", "Food", "ten", "Debit", "lunch")) == None
  {
    LeapDay2024();
  }

  /** The type check is case-sensitive, although the readers of the table lower-case the type. */
  lemma TypeCaseSensitive()
    ensures Validate(Row("2024-02-29", "Food", "5", "debit", "lunch")) == Some(InvalidType)
    ensures IsDebit(Row("2024-02-29", "Food", "5", "debit", "lunch"))
  {
    LeapDay2024();
    assert Lower("debit") == "debit";
  }
}
