/**
  Deleting by value: every line equal to the selected row is dropped, the
  header line included in the comparison, and the survivors keep their order.
*/
module Removal {
  import opened Rows

  /** The lines of `s` that differ from `t`, in their order. */
  function RemoveAll(s: seq<Row>, t: Row): (r: seq<Row>)
    ensures |r| <= |s|
  {
    if s == [] then [] else (if s[0] == t then [] else [s[0]]) + RemoveAll(s[1..], t)
  }

  /** Removing distributes over concatenation, so the survivors keep their relative order. */
  lemma {:induction false} RemoveAllAppend(a: seq<Row>, b: seq<Row>, t: Row)
    ensures RemoveAll(a + b, t) == RemoveAll(a, t) + RemoveAll(b, t)
  {
    if a == [] {
      assert a + b == b;
    } else {
      assert (a + b)[1..] == a[1..] + b;
      RemoveAllAppend(a[1..], b, t);
    }
  }

  /** Exactly the copies of `t` go: every other line keeps its number of occurrences. */
  lemma {:induction false} RemoveAllCount(s: seq<Row>, t: Row)
    ensures multiset(RemoveAll(s, t)) == multiset(s)[t := 0]
    ensures |RemoveAll(s, t)| == |s| - multiset(s)[t]
  {
    if s != [] {
      RemoveAllCount(s[1..], t);
      assert s == [s[0]] + s[1..];
    }
  }

  /** A line survives exactly when it occurs and differs from `t`. */
  lemma RemoveAllMembers(s: seq<Row>, t: Row)
    ensures forall x :: x in RemoveAll(s, t) <==> x in s && x != t
  {
    RemoveAllCount(s, t);
    forall x ensures x in RemoveAll(s, t) <==> x in s && x != t {
      assert x in RemoveAll(s, t) <==> multiset(RemoveAll(s, t))[x] > 0;
      assert x in s <==> multiset(s)[x] > 0;
    }
  }

  /** Nothing changes when there is nothing equal to `t`. */
  lemma {:induction false} RemoveAllAbsent(s: seq<Row>, t: Row)
    requires t !in s
    ensures RemoveAll(s, t) == s
  {
    if s != [] {
      RemoveAllAbsent(s[1..], t);
    }
  }

  /** Deleting the same row a second time changes nothing. */
  lemma RemoveAllIdempotent(s: seq<Row>, t: Row)
    ensures RemoveAll(RemoveAll(s, t), t) == RemoveAll(s, t)
  {
    RemoveAllMembers(s, t);
    RemoveAllAbsent(RemoveAll(s, t), t);
  }

  /**
    Deleting any row but the header keeps a consistent table consistent, and
    the records lose exactly the copies of that row.
  */
  lemma RemoveAllConsistent(present: bool, rows: seq<Row>, t: Row)
    requires Consistent(present, rows) && t != Header
    ensures Consistent(present, RemoveAll(rows, t))
    ensures Records(RemoveAll(rows, t)) == RemoveAll(Records(rows), t)
  {
    if present {
      var r := RemoveAll(rows, t);
      assert rows == [Header] + rows[1..];
      RemoveAllAppend([Header], rows[1..], t);
      assert r == [Header] + RemoveAll(rows[1..], t);
      RemoveAllMembers(rows[1..], t);
      forall i | 1 <= i < |r| ensures Admissible(r[i]) {
        assert r[i] in RemoveAll(rows[1..], t);
        var j :| 0 <= j < |rows[1..]| && rows[1..][j] == r[i];
        assert rows[j + 1] == r[i];
      }
    }
  }
}
