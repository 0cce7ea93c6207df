/**
  The range view: the records whose date lies in a closed interval, their
  balance (credits minus debits), and the listing stably sorted by date text.
*/
module View {
  import opened Outcomes
  import opened Text
  import opened Dates
  import opened Amounts
  import opened Sorting
  import opened Rows

  /** What the view shows: the listed rows and the balance below them. */
  datatype Listing = Listing(rows: seq<Row>, balance: real)

  /** The sort key of the listing: the date column as text. */
  function DateKey(r: Row): string {
    r.date
  }

  /** The rows of `s` inside the window, in their order. */
  function Kept(s: seq<Row>, lo: Date, hi: Date): seq<Row> {
    if s == [] then []
    else Kept(s[..|s| - 1], lo, hi) + (if InWindow(s[|s| - 1], lo, hi) then [s[|s| - 1]] else [])
  }

  /** Reading the record raises nothing: its date parses, and so does its amount when it lies inside the window. */
  predicate RowReadable(x: Row, lo: Date, hi: Date) {
    Parse(x.date).Some? && (InWindow(x, lo, hi) ==> ParseAmount(x.amount).Some?)
  }

  /** The scan runs to the end: no record raises. */
  predicate Readable(s: seq<Row>, lo: Date, hi: Date) {
    s == [] || (Readable(s[..|s| - 1], lo, hi) && RowReadable(s[|s| - 1], lo, hi))
  }

  /** Sum of the amounts of the credit rows inside the window. */
  function Credits(s: seq<Row>, lo: Date, hi: Date): real {
    if s == [] then 0.0
    else
      var r := s[|s| - 1];
      Credits(s[..|s| - 1], lo, hi) + (if InWindow(r, lo, hi) && IsCredit(r) then AmountOf(r.amount) else 0.0)
  }

  /** Sum of the amounts of the debit rows inside the window. */
  function Debits(s: seq<Row>, lo: Date, hi: Date): real {
    if s == [] then 0.0
    else
      var r := s[|s| - 1];
      Debits(s[..|s| - 1], lo, hi) + (if InWindow(r, lo, hi) && IsDebit(r) then AmountOf(r.amount) else 0.0)
  }

  /**
    The view handler: both bounds are parsed first, then the table is opened,
    then each record is read in turn.
  */
  function ViewSpec(present: bool, rows: seq<Row>, startText: string, endText: string): Result<Listing, Failure> {
    if Parse(startText).None? || Parse(endText).None? then Err(InvalidDateFormat)
    else if !present then Err(NoTransactions)
    else
      var lo, hi, s := Parse(startText).value, Parse(endText).value, Records(rows);
      if !Readable(s, lo, hi) then Err(InvalidDateFormat)
      else Ok(Listing(SortBy(Kept(s, lo, hi), DateKey), Credits(s, lo, hi) - Debits(s, lo, hi)))
  }

  lemma {:induction false} KeptAppend(a: seq<Row>, b: seq<Row>, lo: Date, hi: Date)
    ensures Kept(a + b, lo, hi) == Kept(a, lo, hi) + Kept(b, lo, hi)
    ensures Credits(a + b, lo, hi) == Credits(a, lo, hi) + Credits(b, lo, hi)
    ensures Debits(a + b, lo, hi) == Debits(a, lo, hi) + Debits(b, lo, hi)
  {
    if b == [] {
      assert a + b == a;
    } else {
      var init := b[..|b| - 1];
      assert (a + b)[..|a + b| - 1] == a + init;
      assert (a + b)[|a + b| - 1] == b[|b| - 1];
      KeptAppend(a, init, lo, hi);
    }
  }

  /** One more record: what the scan adds to each of its results. */
  lemma ScanStep(data: seq<Row>, i: nat, lo: Date, hi: Date)
    requires i < |data|
    ensures var s, x := data[..i], data[i];
      && data[..i + 1] == s + [x]
      && Kept(s + [x], lo, hi) == Kept(s, lo, hi) + (if InWindow(x, lo, hi) then [x] else [])
      && Credits(s + [x], lo, hi) == Credits(s, lo, hi) + (if InWindow(x, lo, hi) && IsCredit(x) then AmountOf(x.amount) else 0.0)
      && Debits(s + [x], lo, hi) == Debits(s, lo, hi) + (if InWindow(x, lo, hi) && IsDebit(x) then AmountOf(x.amount) else 0.0)
      && (Readable(s + [x], lo, hi) <==> Readable(s, lo, hi) && RowReadable(x, lo, hi))
  {
    var s, x := data[..i], data[i];
    assert data[..i + 1] == s + [x];
    assert (s + [x])[..|s|] == s;
    assert (s + [x])[|s|] == x;
  }

  /** A scan that runs to the end also runs through every prefix. */
  lemma {:induction false} ReadablePrefix(s: seq<Row>, k: nat, lo: Date, hi: Date)
    requires k <= |s|
    ensures Readable(s, lo, hi) ==> Readable(s[..k], lo, hi)
    decreases |s|
  {
    if k < |s| {
      var init := s[..|s| - 1];
      ReadablePrefix(init, k, lo, hi);
      assert init[..k] == s[..k];
    } else {
      assert s[..k] == s;
    }
  }

  /** The scan runs to the end exactly when every record can be read. */
  lemma {:induction false} ReadableAll(s: seq<Row>, lo: Date, hi: Date)
    ensures Readable(s, lo, hi) <==> forall i :: 0 <= i < |s| ==> RowReadable(s[i], lo, hi)
  {
    if s != [] {
      var init := s[..|s| - 1];
      ReadableAll(init, lo, hi);
      assert forall i :: 0 <= i < |init| ==> init[i] == s[i];
    }
  }

  /** A row is kept exactly when it occurs and lies inside the window. */
  lemma {:induction false} KeptMembers(s: seq<Row>, lo: Date, hi: Date)
    ensures forall x :: x in Kept(s, lo, hi) <==> x in s && InWindow(x, lo, hi)
  {
    if s != [] {
      KeptMembers(s[..|s| - 1], lo, hi);
      assert s == s[..|s| - 1] + [s[|s| - 1]];
    }
  }

  /** With no row inside the window nothing is kept and both sums are zero. */
  lemma {:induction false} NothingKept(s: seq<Row>, lo: Date, hi: Date)
    requires forall i :: 0 <= i < |s| ==> !InWindow(s[i], lo, hi)
    ensures Kept(s, lo, hi) == [] && Credits(s, lo, hi) == 0.0 && Debits(s, lo, hi) == 0.0
  {
    if s != [] {
      NothingKept(s[..|s| - 1], lo, hi);
    }
  }

  /**
    A successful view lists exactly the records inside the window, each as
    often as it occurs there, sorted by date text; rows with equal dates keep
    their order in the table.
  */
  lemma ViewListsWindow(present: bool, rows: seq<Row>, startText: string, endText: string)
    requires ViewSpec(present, rows, startText, endText).Ok?
    ensures var l, lo, hi := ViewSpec(present, rows, startText, endText).value, Parse(startText).value, Parse(endText).value;
      && (forall x :: x in l.rows <==> x in Records(rows) && InWindow(x, lo, hi))
      && multiset(l.rows) == multiset(Kept(Records(rows), lo, hi))
      && SortedBy(l.rows, DateKey)
      && (forall k :: Run(l.rows, DateKey, k) == Run(Kept(Records(rows), lo, hi), DateKey, k))
  {
    var lo, hi := Parse(startText).value, Parse(endText).value;
    var kept := Kept(Records(rows), lo, hi);
    SortByCorrect(kept, DateKey);
    KeptMembers(Records(rows), lo, hi);
    forall x ensures x in SortBy(kept, DateKey) <==> x in kept {
      assert x in SortBy(kept, DateKey) <==> x in multiset(SortBy(kept, DateKey));
    }
  }

  /** Every row's date parses, and no date comes after the date of a later row. */
  predicate Chronological(l: seq<Row>) {
    forall i, j :: 0 <= i < j < |l| ==>
      Parse(l[i].date).Some? && Parse(l[j].date).Some? && NotAfter(Parse(l[i].date).value, Parse(l[j].date).value)
  }

  /** Rows sorted by date text whose dates all parse are in calendar order. */
  lemma SortedChronological(l: seq<Row>)
    requires SortedBy(l, DateKey)
    requires forall x :: x in l ==> Parse(x.date).Some?
    ensures Chronological(l)
  {
    forall i, j | 0 <= i < j < |l|
      ensures NotAfter(Parse(l[i].date).value, Parse(l[j].date).value)
    {
      assert l[i] in l && l[j] in l;
      assert !Less(DateKey(l[j]), DateKey(l[i]));
      LessMatchesBefore(l[j].date, l[i].date);
    }
  }

  /** The listing is also in calendar order: the date-text order agrees with the date order. */
  lemma ViewChronological(present: bool, rows: seq<Row>, startText: string, endText: string)
    requires ViewSpec(present, rows, startText, endText).Ok?
    ensures Chronological(ViewSpec(present, rows, startText, endText).value.rows)
  {
    ViewListsWindow(present, rows, startText, endText);
    SortedChronological(ViewSpec(present, rows, startText, endText).value.rows);
  }

  /** A window whose end lies before its start shows nothing, with balance zero. */
  lemma EmptyWindow(present: bool, rows: seq<Row>, startText: string, endText: string)
    requires ViewSpec(present, rows, startText, endText).Ok?
    requires Before(Parse(endText).value, Parse(startText).value)
    ensures ViewSpec(present, rows, startText, endText).value == Listing([], 0.0)
  {
    var lo, hi := Parse(startText).value, Parse(endText).value;
    NothingKept(Records(rows), lo, hi);
  }

  /** One accepted row inside the window, with a readable amount, appended to a readable table. */
  lemma AppendReadable(s: seq<Row>, e: Row, v: real, lo: Date, hi: Date)
    requires Admissible(e) && ParseAmount(e.amount) == Some(v) && InWindow(e, lo, hi)
    requires Readable(s, lo, hi)
    ensures Readable(s + [e], lo, hi)
    ensures Credits(s + [e], lo, hi) - Debits(s + [e], lo, hi) ==
      Credits(s, lo, hi) - Debits(s, lo, hi) + (if e.kind == "Credit" then v else -v)
  {
    AdmissibleCounts(e);
    var t := s + [e];
    assert t[..|s|] == s && t[|s|] == e;
    assert t[..|s| + 1] == t;
    ScanStep(t, |s|, lo, hi);
  }

  /**
    Adding an accepted row with a readable amount inside the window to a table
    that views successfully: the row is listed, and the balance moves by its
    amount, up for a credit and down for a debit.
  */
  lemma AddThenView(present: bool, rows: seq<Row>, e: Row, v: real, startText: string, endText: string)
    requires Consistent(present, rows) && Admissible(e) && ParseAmount(e.amount) == Some(v)
    requires Parse(startText).Some? && Parse(endText).Some?
    requires InWindow(e, Parse(startText).value, Parse(endText).value)
    requires present ==> ViewSpec(present, rows, startText, endText).Ok?
    ensures var after := ViewSpec(true, Appended(present, rows, e), startText, endText);
      var before := if present then ViewSpec(present, rows, startText, endText).value.balance else 0.0;
      && after.Ok?
      && e in after.value.rows
      && after.value.balance == before + (if e.kind == "Credit" then v else -v)
  {
    var lo, hi := Parse(startText).value, Parse(endText).value;
    var s := Records(rows);
    AppendedConsistent(present, rows, e);
    if !present {
      assert s == [];
    }
    AppendReadable(s, e, v, lo, hi);
    ViewListsWindow(true, Appended(present, rows, e), startText, endText);
  }

  /**
    On a consistent table with valid bounds, the view can fail only because of
    an amount inside the window: the add handler checks dates but not amounts.
  */
  lemma OnlyAmountsFail(present: bool, rows: seq<Row>, startText: string, endText: string)
    requires Consistent(present, rows) && present
    requires Parse(startText).Some? && Parse(endText).Some?
    ensures var lo, hi := Parse(startText).value, Parse(endText).value;
      ViewSpec(present, rows, startText, endText).Err? <==>
        exists x :: x in Records(rows) && InWindow(x, lo, hi) && ParseAmount(x.amount).None?
  {
    var lo, hi := Parse(startText).value, Parse(endText).value;
    var s := Records(rows);
    forall i | 0 <= i < |s| ensures Parse(s[i].date).Some? {
      assert s[i] == rows[i + 1];
    }
    ReadableAll(s, lo, hi);
    if !Readable(s, lo, hi) {
      var i :| 0 <= i < |s| && !RowReadable(s[i], lo, hi);
      assert s[i] in s;
    }
  }
}
