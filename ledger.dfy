/**
  The transactions file and the handlers that read and write it. The file is
  an existence flag and its lines; each handler returns what its message box
  or chart would show.
*/
module Ledger {
  import opened Outcomes
  import opened Dates
  import opened Amounts
  import opened Sorting
  import opened Grouping
  import opened Rows
  import opened Removal
  import opened View
  import opened Spending

  class LedgerFile {
    /** The file exists; reading an absent file raises `FileNotFoundError`. */
    var present: bool
    /** Its lines, the header first. */
    var rows: seq<Row>

    constructor(present: bool, rows: seq<Row>)
      ensures this.present == present && this.rows == rows
    {
      this.present := present;
      this.rows := rows;
    }

    /** The start of the program before anything was added: no file yet, which is a consistent state. */
    constructor Empty()
      ensures !present && rows == []
      ensures Valid()
    {
      present := false;
      rows := [];
    }

    /** Written only by these handlers: absent and empty, or the header and accepted rows. */
    ghost predicate Valid()
      reads this
    {
      Consistent(present, rows)
    }

    /**
      The add handler: a rejected row writes nothing; an accepted one is
      appended, after creating the file with its header when it is absent.
    */
    method Add(entry: Row) returns (f: Option<Failure>)
      modifies this
      ensures f == Validate(entry)
      ensures f.Some? ==> present == old(present) && rows == old(rows)
      ensures f.None? ==> present && rows == Appended(old(present), old(rows), entry)
      ensures old(Valid()) ==> Valid()
    {
      f := Validate(entry);
      if f.None? {
        if !present {
          present := true;
          rows := [Header];
        }
        rows := rows + [entry];
        if old(Valid()) {
          AppendedConsistent(old(present), old(rows), entry);
        }
      }
    }

    /**
      The range view: parses both bounds, opens the file, scans the records,
      then sorts what it kept by date text.
    */
    method ViewRange(startText: string, endText: string) returns (r: Result<Listing, Failure>)
      ensures r == ViewSpec(present, rows, startText, endText)
    {
      var lo := Parse(startText);
      var hi := Parse(endText);
      if lo.None? || hi.None? {
        return Err(InvalidDateFormat);
      }
      if !present {
        return Err(NoTransactions);
      }
      var ok, kept, balance := ScanWindow(Records(rows), lo.value, hi.value);
      if !ok {
        return Err(InvalidDateFormat);
      }
      kept := SortBy(kept, DateKey);
      return Ok(Listing(kept, balance));
    }

    /**
      The delete handler: without a selection nothing happens; otherwise every
      line equal to the selected row is dropped and the survivors rewritten.
    */
    method Delete(selection: Option<Row>) returns (f: Option<Failure>)
      modifies this
      ensures f == (if selection.None? then Some(NoSelection) else if !old(present) then Some(Unexpected) else None)
      ensures present == old(present)
      ensures rows == if f.None? then RemoveAll(old(rows), selection.value) else old(rows)
      ensures old(Valid()) && selection != Some(Header) ==> Valid()
    {
      if selection.None? {
        return Some(NoSelection);
      }
      if !present {
        return Some(Unexpected);
      }
      if Valid() && selection.value != Header {
        RemoveAllConsistent(present, rows, selection.value);
      }
      rows := RemoveAll(rows, selection.value);
      return None;
    }

    /** The spending-by-category handler, up to the data it hands to the plot. */
    method CategorySpending() returns (r: Result<Chart, Failure>)
      ensures r == CategorySpec(present, rows)
    {
      if !present {
        return Err(NoTransactions);
      }
      var ok, totals := SumByCategory(Records(rows));
      if !ok {
        return Err(Unexpected);
      }
      if totals == [] {
        return Ok(NoData);
      }
      return Ok(Bars(totals));
    }

    /** The spending-by-day handler, up to the data it hands to the plot. */
    method DailySpending(startText: string, endText: string) returns (r: Result<Chart, Failure>)
      ensures r == DailySpec(present, rows, startText, endText)
    {
      var lo := Parse(startText);
      var hi := Parse(endText);
      if lo.None? || hi.None? {
        return Err(Unexpected);
      }
      if !present {
        return Err(NoTransactions);
      }
      var ok, totals := SumByDay(Records(rows), lo.value, hi.value);
      if !ok {
        return Err(Unexpected);
      }
      if totals == [] {
        return Ok(NoData);
      }
      return Ok(Bars(SortBy(totals, EntryKey)));
    }
  }

  /**
    The scan of the range view: each record's date is parsed; a record inside
    the window has its amount parsed, moves the balance by its type, and is
    kept. `ok` is false when a parse raises.
  */
  method ScanWindow(data: seq<Row>, lo: Date, hi: Date) returns (ok: bool, kept: seq<Row>, balance: real)
    ensures ok == Readable(data, lo, hi)
    ensures ok ==> kept == Kept(data, lo, hi) && balance == Credits(data, lo, hi) - Debits(data, lo, hi)
  {
    balance := 0.0;
    kept := [];
    var i := 0;
    while i < |data|
      invariant 0 <= i <= |data|
      invariant Readable(data[..i], lo, hi)
      invariant kept == Kept(data[..i], lo, hi)
      invariant balance == Credits(data[..i], lo, hi) - Debits(data[..i], lo, hi)
    {
      var row := data[i];
      View.ScanStep(data, i, lo, hi);
      var d := Parse(row.date);
      if d.None? {
        View.ReadablePrefix(data, i + 1, lo, hi);
        return false, kept, balance;
      }
      if NotAfter(lo, d.value) && NotAfter(d.value, hi) {
        var amount := ParseAmount(row.amount);
        if amount.None? {
          View.ReadablePrefix(data, i + 1, lo, hi);
          return false, kept, balance;
        }
        if IsCredit(row) {
          balance := balance + amount.value;
        } else if IsDebit(row) {
          balance := balance - amount.value;
        }
        kept := kept + [row];
      }
      i := i + 1;
    }
    assert data[..i] == data;
    return true, kept, balance;
  }

  /**
    The loop of the category chart: `totals[category] += amount` for every
    debit record. `ok` is false when an amount does not parse.
  */
  method SumByCategory(data: seq<Row>) returns (ok: bool, totals: seq<Entry>)
    ensures ok == CategoryReadable(data)
    ensures ok ==> totals == GroupSum(Contribs(data, ByCategory))
  {
    totals := [];
    var i := 0;
    while i < |data|
      invariant 0 <= i <= |data|
      invariant CategoryReadable(data[..i])
      invariant totals == GroupSum(Contribs(data[..i], ByCategory))
    {
      var row := data[i];
      CategoryStep(data, i);
      if IsDebit(row) {
        var amount := ParseAmount(row.amount);
        if amount.None? {
          CategoryPrefix(data, i + 1);
          return false, totals;
        }
        assert Contribs(data[..i + 1], ByCategory) == Contribs(data[..i], ByCategory) + [Entry(row.category, amount.value)];
        GroupSumSnoc(Contribs(data[..i], ByCategory), Entry(row.category, amount.value));
        totals := Upsert(totals, row.category, amount.value);
      } else {
        assert Contribs(data[..i + 1], ByCategory) == Contribs(data[..i], ByCategory);
      }
      i := i + 1;
    }
    assert data[..i] == data;
    return true, totals;
  }

  /**
    The loop of the daily chart: each record's date is parsed, and
    `totals[date] += amount` for every debit record inside the window. `ok` is
    false when a parse raises.
  */
  method SumByDay(data: seq<Row>, lo: Date, hi: Date) returns (ok: bool, totals: seq<Entry>)
    ensures ok == DailyReadable(data, lo, hi)
    ensures ok ==> totals == GroupSum(Contribs(data, ByDay(lo, hi)))
  {
    var b := ByDay(lo, hi);
    totals := [];
    var i := 0;
    while i < |data|
      invariant 0 <= i <= |data|
      invariant DailyReadable(data[..i], lo, hi)
      invariant totals == GroupSum(Contribs(data[..i], b))
    {
      var row := data[i];
      DailyStep(data, i, lo, hi);
      var d := Parse(row.date);
      if d.None? {
        DailyPrefix(data, i + 1, lo, hi);
        return false, totals;
      }
      if NotAfter(lo, d.value) && NotAfter(d.value, hi) && IsDebit(row) {
        var amount := ParseAmount(row.amount);
        if amount.None? {
          DailyPrefix(data, i + 1, lo, hi);
          return false, totals;
        }
        assert Contribs(data[..i + 1], b) == Contribs(data[..i], b) + [Entry(row.date, amount.value)];
        GroupSumSnoc(Contribs(data[..i], b), Entry(row.date, amount.value));
        totals := Upsert(totals, row.date, amount.value);
      } else {
        assert Contribs(data[..i + 1], b) == Contribs(data[..i], b);
      }
      i := i + 1;
    }
    assert data[..i] == data;
    return true, totals;
  }
}
