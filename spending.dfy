/**
  The two spending charts: debit amounts summed per category over the whole
  table, and per date over a closed range with the dates in ascending order.
*/
module Spending {
  import opened Outcomes
  import opened Text
  import opened Dates
  import opened Amounts
  import opened Sorting
  import opened Grouping
  import opened Rows

  /** The data handed to the plotting library, or the "no data" notice. */
  datatype Chart = NoData | Bars(entries: seq<Entry>)

  /** Which chart is being built: per category, or per date inside a window. */
  datatype Breakdown = ByCategory | ByDay(lo: Date, hi: Date)

  /** The record adds to the chart: it is a debit, and for the daily chart it lies in the window. */
  predicate Counts(b: Breakdown, r: Row) {
    match b
    case ByCategory => IsDebit(r)
    case ByDay(lo, hi) => InWindow(r, lo, hi) && IsDebit(r)
  }

  /** The dictionary key the record adds to. */
  function KeyOf(b: Breakdown, r: Row): string {
    match b
    case ByCategory => r.category
    case ByDay(_, _) => r.date
  }

  /** One (key, amount) pair per counted record, in table order. */
  function Contribs(s: seq<Row>, b: Breakdown): seq<Entry> {
    if s == [] then []
    else
      var r := s[|s| - 1];
      Contribs(s[..|s| - 1], b) + (if Counts(b, r) then [Entry(KeyOf(b, r), AmountOf(r.amount))] else [])
  }

  /** Reference on the rows themselves: the sum of the amounts of the counted records with key `k`. */
  function DebitTotal(s: seq<Row>, b: Breakdown, k: string): real {
    if s == [] then 0.0
    else
      var r := s[|s| - 1];
      DebitTotal(s[..|s| - 1], b, k) + (if Counts(b, r) && KeyOf(b, r) == k then AmountOf(r.amount) else 0.0)
  }

  /** The per-category scan runs to the end: every debit amount parses. */
  predicate CategoryReadable(s: seq<Row>) {
    s == [] || (CategoryReadable(s[..|s| - 1]) && (IsDebit(s[|s| - 1]) ==> ParseAmount(s[|s| - 1].amount).Some?))
  }

  /** The per-date scan runs to the end: every date parses, and so does every counted amount. */
  predicate DailyReadable(s: seq<Row>, lo: Date, hi: Date) {
    s == [] ||
      var x := s[|s| - 1];
      DailyReadable(s[..|s| - 1], lo, hi) && Parse(x.date).Some? && (InWindow(x, lo, hi) && IsDebit(x) ==> ParseAmount(x.amount).Some?)
  }

  /** The spending-by-category handler, up to the data it would plot. */
  function CategorySpec(present: bool, rows: seq<Row>): Result<Chart, Failure> {
    if !present then Err(NoTransactions)
    else if !CategoryReadable(Records(rows)) then Err(Unexpected)
    else
      var g := GroupSum(Contribs(Records(rows), ByCategory));
      if g == [] then Ok(NoData) else Ok(Bars(g))
  }

  /**
    The spending-by-day handler: both bounds are parsed first (a failure is an
    ordinary exception here), then the table is read; the dates are sorted.
  */
  function DailySpec(present: bool, rows: seq<Row>, startText: string, endText: string): Result<Chart, Failure> {
    if Parse(startText).None? || Parse(endText).None? then Err(Unexpected)
    else if !present then Err(NoTransactions)
    else
      var lo, hi := Parse(startText).value, Parse(endText).value;
      if !DailyReadable(Records(rows), lo, hi) then Err(Unexpected)
      else
        var g := GroupSum(Contribs(Records(rows), ByDay(lo, hi)));
        if g == [] then Ok(NoData) else Ok(Bars(SortBy(g, EntryKey)))
  }

  lemma {:induction false} ContribsAppend(a: seq<Row>, c: seq<Row>, b: Breakdown)
    ensures Contribs(a + c, b) == Contribs(a, b) + Contribs(c, b)
  {
    if c == [] {
      assert a + c == a;
    } else {
      assert (a + c)[..|a + c| - 1] == a + c[..|c| - 1];
      assert (a + c)[|a + c| - 1] == c[|c| - 1];
      ContribsAppend(a, c[..|c| - 1], b);
    }
  }

  /** One more record: what the category scan adds to its results. */
  lemma CategoryStep(data: seq<Row>, i: nat)
    requires i < |data|
    ensures var s, x := data[..i], data[i];
      && data[..i + 1] == s + [x]
      && Contribs(s + [x], ByCategory) == Contribs(s, ByCategory) + (if IsDebit(x) then [Entry(x.category, AmountOf(x.amount))] else [])
      && (CategoryReadable(s + [x]) <==> CategoryReadable(s) && (IsDebit(x) ==> ParseAmount(x.amount).Some?))
  {
    var s, x := data[..i], data[i];
    assert data[..i + 1] == s + [x];
    assert (s + [x])[..|s|] == s;
    assert (s + [x])[|s|] == x;
  }

  /** One more record: what the daily scan adds to its results. */
  lemma DailyStep(data: seq<Row>, i: nat, lo: Date, hi: Date)
    requires i < |data|
    ensures var s, x := data[..i], data[i];
      && data[..i + 1] == s + [x]
      && Contribs(s + [x], ByDay(lo, hi)) ==
           Contribs(s, ByDay(lo, hi)) + (if InWindow(x, lo, hi) && IsDebit(x) then [Entry(x.date, AmountOf(x.amount))] else [])
      && (DailyReadable(s + [x], lo, hi) <==>
           DailyReadable(s, lo, hi) && Parse(x.date).Some? && (InWindow(x, lo, hi) && IsDebit(x) ==> ParseAmount(x.amount).Some?))
  {
    var s, x := data[..i], data[i];
    assert data[..i + 1] == s + [x];
    assert (s + [x])[..|s|] == s;
    assert (s + [x])[|s|] == x;
  }

  /** A category scan that runs to the end also runs through every prefix. */
  lemma {:induction false} CategoryPrefix(s: seq<Row>, k: nat)
    requires k <= |s|
    ensures CategoryReadable(s) ==> CategoryReadable(s[..k])
    decreases |s|
  {
    if k < |s| {
      var init := s[..|s| - 1];
      CategoryPrefix(init, k);
      assert init[..k] == s[..k];
    } else {
      assert s[..k] == s;
    }
  }

  /** A daily scan that runs to the end also runs through every prefix. */
  lemma {:induction false} DailyPrefix(s: seq<Row>, k: nat, lo: Date, hi: Date)
    requires k <= |s|
    ensures DailyReadable(s, lo, hi) ==> DailyReadable(s[..k], lo, hi)
    decreases |s|
  {
    if k < |s| {
      var init := s[..|s| - 1];
      DailyPrefix(init, k, lo, hi);
      assert init[..k] == s[..k];
    } else {
      assert s[..k] == s;
    }
  }

  /** Some counted record has key `k`. */
  ghost predicate Counted(s: seq<Row>, b: Breakdown, k: string) {
    exists i :: 0 <= i < |s| && Counts(b, s[i]) && KeyOf(b, s[i]) == k
  }

  /** The reference sum over the pairs is the sum over the counted records. */
  lemma {:induction false} TotalOfContribs(s: seq<Row>, b: Breakdown, k: string)
    ensures Total(Contribs(s, b), k) == DebitTotal(s, b, k)
  {
    if s != [] {
      var r := s[|s| - 1];
      var c := Contribs(s[..|s| - 1], b);
      TotalOfContribs(s[..|s| - 1], b, k);
      if Counts(b, r) {
        var p := Entry(KeyOf(b, r), AmountOf(r.amount));
        assert Contribs(s, b) == c + [p];
        TotalSnoc(c, p, k);
      } else {
        assert Contribs(s, b) == c;
      }
    }
  }

  /** A counted record puts its key among the pairs. */
  lemma {:induction false} CountedHasKey(s: seq<Row>, b: Breakdown, k: string)
    requires Counted(s, b, k)
    ensures HasKey(Contribs(s, b), k)
  {
    var init, r := s[..|s| - 1], s[|s| - 1];
    var c := Contribs(init, b);
    var cs := Contribs(s, b);
    assert cs == c + (if Counts(b, r) then [Entry(KeyOf(b, r), AmountOf(r.amount))] else []);
    var i :| 0 <= i < |s| && Counts(b, s[i]) && KeyOf(b, s[i]) == k;
    if i < |s| - 1 {
      assert init[i] == s[i];
      CountedHasKey(init, b, k);
      var j :| 0 <= j < |c| && c[j].key == k;
      assert cs[j] == c[j];
    } else {
      assert cs[|c|].key == k;
    }
  }

  /** Every key among the pairs comes from a counted record. */
  lemma {:induction false} HasKeyCounted(s: seq<Row>, b: Breakdown, k: string)
    requires HasKey(Contribs(s, b), k)
    ensures Counted(s, b, k)
  {
    var init, r := s[..|s| - 1], s[|s| - 1];
    var c := Contribs(init, b);
    var cs := Contribs(s, b);
    assert cs == c + (if Counts(b, r) then [Entry(KeyOf(b, r), AmountOf(r.amount))] else []);
    var j :| 0 <= j < |cs| && cs[j].key == k;
    if j < |c| {
      assert c[j] == cs[j];
      HasKeyCounted(init, b, k);
      var i :| 0 <= i < |init| && Counts(b, init[i]) && KeyOf(b, init[i]) == k;
      assert s[i] == init[i];
    } else {
      assert Counts(b, r) && KeyOf(b, r) == k;
    }
  }

  /** A key receives an amount exactly when some counted record has that key. */
  lemma ContribKeys(s: seq<Row>, b: Breakdown, k: string)
    ensures HasKey(Contribs(s, b), k) <==> Counted(s, b, k)
  {
    if Counted(s, b, k) {
      CountedHasKey(s, b, k);
    }
    if HasKey(Contribs(s, b), k) {
      HasKeyCounted(s, b, k);
    }
  }

  /** The keys of the grouping are the keys of the counted records. */
  lemma GroupedKeys(s: seq<Row>, b: Breakdown, k: string)
    ensures HasKey(GroupSum(Contribs(s, b)), k) <==> Counted(s, b, k)
  {
    var c := Contribs(s, b);
    var g := GroupSum(c);
    GroupSumGroups(c);
    FirstIndexFound(c, k);
    ContribKeys(s, b, k);
    if HasKey(g, k) {
      var i :| 0 <= i < |g| && g[i].key == k;
      assert FirstIndex(c, g[i].key) < |c|;
    }
  }

  /** The grouping is empty exactly when no record is counted. */
  lemma GroupedEmpty(s: seq<Row>, b: Breakdown)
    ensures GroupSum(Contribs(s, b)) == [] <==> forall i :: 0 <= i < |s| ==> !Counts(b, s[i])
  {
    var g := GroupSum(Contribs(s, b));
    if exists i :: 0 <= i < |s| && Counts(b, s[i]) {
      var i :| 0 <= i < |s| && Counts(b, s[i]);
      GroupedKeys(s, b, KeyOf(b, s[i]));
    }
    if g != [] {
      GroupedKeys(s, b, g[0].key);
    }
  }

  /**
    What any chart's entries say about the table: they are the grouping of the
    counted amounts, one entry per key of a counted record, each holding the sum
    of that key's amounts.
  */
  lemma GroupedRows(s: seq<Row>, b: Breakdown)
    ensures var g := GroupSum(Contribs(s, b));
      && Groups(g, Contribs(s, b))
      && (forall i, j :: 0 <= i < j < |g| ==> g[i].key != g[j].key)
      && (forall i :: 0 <= i < |g| ==> g[i].total == DebitTotal(s, b, g[i].key))
      && (forall k :: HasKey(g, k) <==> Counted(s, b, k))
      && (g == [] <==> forall i :: 0 <= i < |s| ==> !Counts(b, s[i]))
  {
    var c := Contribs(s, b);
    var g := GroupSum(c);
    GroupSumGroups(c);
    GroupsShape(g, c);
    forall i | 0 <= i < |g| ensures g[i].total == DebitTotal(s, b, g[i].key) {
      TotalOfContribs(s, b, g[i].key);
    }
    forall k ensures HasKey(g, k) <==> Counted(s, b, k) {
      GroupedKeys(s, b, k);
    }
    GroupedEmpty(s, b);
  }

  /**
    The category chart: one bar per distinct debit category, in the order the
    categories were first met, each the sum of that category's debit amounts;
    credits and other types add nothing. "No data" exactly when there is no debit.
  */
  lemma CategoryChart(present: bool, rows: seq<Row>)
    requires CategorySpec(present, rows).Ok?
    ensures var s := Records(rows);
      match CategorySpec(present, rows).value
      case NoData => forall i :: 0 <= i < |s| ==> !IsDebit(s[i])
      case Bars(g) =>
        && g != []
        && Groups(g, Contribs(s, ByCategory))
        && (forall i, j :: 0 <= i < j < |g| ==> g[i].key != g[j].key)
        && (forall i :: 0 <= i < |g| ==> g[i].total == DebitTotal(s, ByCategory, g[i].key))
        && (forall k :: HasKey(g, k) <==> Counted(s, ByCategory, k))
  {
    GroupedRows(Records(rows), ByCategory);
  }

  /** Appending a row that is not a debit leaves the category chart as it was. */
  lemma CategoryIgnoresCredits(rows: seq<Row>, r: Row)
    requires rows != [] && !IsDebit(r)
    ensures CategorySpec(true, rows + [r]) == CategorySpec(true, rows)
  {
    assert Records(rows + [r]) == Records(rows) + [r];
    ContribsAppend(Records(rows), [r], ByCategory);
    assert Contribs([r], ByCategory) == [] by {
      assert [r][..0] == [];
    }
    assert Contribs(Records(rows) + [r], ByCategory) == Contribs(Records(rows), ByCategory);
  }

  /** Every date of the grouping lies in the window. */
  lemma GroupedDatesInWindow(s: seq<Row>, lo: Date, hi: Date)
    ensures var g := GroupSum(Contribs(s, ByDay(lo, hi)));
      forall i :: 0 <= i < |g| ==>
        Parse(g[i].key).Some? && NotAfter(lo, Parse(g[i].key).value) && NotAfter(Parse(g[i].key).value, hi)
  {
    var b := ByDay(lo, hi);
    var g := GroupSum(Contribs(s, b));
    forall i | 0 <= i < |g|
      ensures Parse(g[i].key).Some? && NotAfter(lo, Parse(g[i].key).value) && NotAfter(Parse(g[i].key).value, hi)
    {
      GroupedKeys(s, b, g[i].key);
      var w :| 0 <= w < |s| && Counts(b, s[w]) && KeyOf(b, s[w]) == g[i].key;
    }
  }

  /** Every date is in calendar order with every later one, strictly. */
  predicate StrictlyChronological(d: seq<Entry>) {
    forall i, j :: 0 <= i < j < |d| ==>
      Parse(d[i].key).Some? && Parse(d[j].key).Some? && Before(Parse(d[i].key).value, Parse(d[j].key).value)
  }

  /** Sorting entries with distinct date keys puts them in strictly ascending calendar order. */
  lemma SortedDates(g: seq<Entry>)
    requires forall i :: 0 <= i < |g| ==> Parse(g[i].key).Some?
    requires forall i, j :: 0 <= i < j < |g| ==> g[i].key != g[j].key
    ensures var d := SortBy(g, EntryKey);
      && multiset(d) == multiset(g)
      && (forall i, j :: 0 <= i < j < |d| ==> Less(d[i].key, d[j].key))
      && StrictlyChronological(d)
  {
    var d := SortBy(g, EntryKey);
    SortByCorrect(g, EntryKey);
    SortByDistinct(g, EntryKey);
    forall i | 0 <= i < |d| ensures Parse(d[i].key).Some? {
      assert d[i] in multiset(g);
      var m :| 0 <= m < |g| && g[m] == d[i];
    }
    forall i, j | 0 <= i < j < |d| ensures Before(Parse(d[i].key).value, Parse(d[j].key).value) {
      assert Less(EntryKey(d[i]), EntryKey(d[j]));
      LessMatchesBefore(d[i].key, d[j].key);
    }
  }

  /** Sorting keeps the set of keys and the entry of each key. */
  lemma SortedEntries(g: seq<Entry>)
    ensures var d := SortBy(g, EntryKey);
      (forall x :: x in d <==> x in g) && (forall k :: HasKey(d, k) <==> HasKey(g, k))
  {
    var d := SortBy(g, EntryKey);
    SortByCorrect(g, EntryKey);
    forall x ensures x in d <==> x in g {
      assert x in d <==> x in multiset(d);
    }
    forall k ensures HasKey(d, k) <==> HasKey(g, k) {
      if HasKey(d, k) {
        var i :| 0 <= i < |d| && d[i].key == k;
        assert d[i] in g;
      }
      if HasKey(g, k) {
        var i :| 0 <= i < |g| && g[i].key == k;
        assert g[i] in d;
      }
    }
  }

  /** Sorting keeps, for every entry, that its date lies in the window and that it holds the date's debit sum. */
  lemma SortedInWindow(g: seq<Entry>, s: seq<Row>, lo: Date, hi: Date)
    requires forall i :: 0 <= i < |g| ==>
      Parse(g[i].key).Some? && NotAfter(lo, Parse(g[i].key).value) && NotAfter(Parse(g[i].key).value, hi)
    requires forall i :: 0 <= i < |g| ==> g[i].total == DebitTotal(s, ByDay(lo, hi), g[i].key)
    ensures var d := SortBy(g, EntryKey);
      forall i :: 0 <= i < |d| ==>
        && Parse(d[i].key).Some? && NotAfter(lo, Parse(d[i].key).value) && NotAfter(Parse(d[i].key).value, hi)
        && d[i].total == DebitTotal(s, ByDay(lo, hi), d[i].key)
  {
    var d := SortBy(g, EntryKey);
    SortByCorrect(g, EntryKey);
    forall i | 0 <= i < |d|
      ensures Parse(d[i].key).Some? && NotAfter(lo, Parse(d[i].key).value) && NotAfter(Parse(d[i].key).value, hi)
      ensures d[i].total == DebitTotal(s, ByDay(lo, hi), d[i].key)
    {
      assert d[i] in multiset(g);
      var m :| 0 <= m < |g| && g[m] == d[i];
    }
  }

  /** The bars of the daily chart, once the grouping is sorted by date. */
  lemma DailyBars(s: seq<Row>, lo: Date, hi: Date)
    ensures var g := GroupSum(Contribs(s, ByDay(lo, hi)));
      var d := SortBy(g, EntryKey);
      && multiset(d) == multiset(g)
      && (forall i, j :: 0 <= i < j < |d| ==> Less(d[i].key, d[j].key))
      && StrictlyChronological(d)
      && (forall i :: 0 <= i < |d| ==>
            Parse(d[i].key).Some? && NotAfter(lo, Parse(d[i].key).value) && NotAfter(Parse(d[i].key).value, hi))
      && (forall i :: 0 <= i < |d| ==> d[i].total == DebitTotal(s, ByDay(lo, hi), d[i].key))
      && (forall k :: HasKey(d, k) <==> Counted(s, ByDay(lo, hi), k))
  {
    var b := ByDay(lo, hi);
    var g := GroupSum(Contribs(s, b));
    var d := SortBy(g, EntryKey);
    GroupedRows(s, b);
    GroupedDatesInWindow(s, lo, hi);
    SortedDates(g);
    SortedEntries(g);
    SortedInWindow(g, s, lo, hi);
  }

  /**
    The daily chart: its dates are strictly ascending, both as text and as
    calendar dates, each lies in the window, there is one per date of a debit
    in the window, and each total is that date's debit sum. "No data" exactly
    when there is no debit in the window.
  */
  lemma DailyChart(present: bool, rows: seq<Row>, startText: string, endText: string)
    requires DailySpec(present, rows, startText, endText).Ok?
    ensures var s, lo, hi := Records(rows), Parse(startText).value, Parse(endText).value;
      match DailySpec(present, rows, startText, endText).value
      case NoData => forall i :: 0 <= i < |s| ==> !(InWindow(s[i], lo, hi) && IsDebit(s[i]))
      case Bars(d) =>
        && d != []
        && multiset(d) == multiset(GroupSum(Contribs(s, ByDay(lo, hi))))
        && (forall i, j :: 0 <= i < j < |d| ==> Less(d[i].key, d[j].key))
        && StrictlyChronological(d)
        && (forall i :: 0 <= i < |d| ==>
              Parse(d[i].key).Some? && NotAfter(lo, Parse(d[i].key).value) && NotAfter(Parse(d[i].key).value, hi))
        && (forall i :: 0 <= i < |d| ==> d[i].total == DebitTotal(s, ByDay(lo, hi), d[i].key))
        && (forall k :: HasKey(d, k) <==> Counted(s, ByDay(lo, hi), k))
  {
    var s, lo, hi := Records(rows), Parse(startText).value, Parse(endText).value;
    GroupedEmpty(s, ByDay(lo, hi));
    DailyBars(s, lo, hi);
  }
}
