/**
  A `defaultdict(float)` filled by `totals[key] += amount`: an association
  list of keys and running totals, in the order the keys were first seen.
*/
module Grouping {

  datatype Entry = Entry(key: string, total: real)

  function EntryKey(e: Entry): string {
    e.key
  }

  ghost predicate HasKey(g: seq<Entry>, k: string) {
    exists i :: 0 <= i < |g| && g[i].key == k
  }

  /** Index of the entry for `k`, or the length when there is none. */
  function Find(g: seq<Entry>, k: string): (i: nat)
    ensures i <= |g|
    ensures i < |g| ==> g[i].key == k
    ensures forall j :: 0 <= j < i ==> g[j].key != k
  {
    if g == [] then 0
    else if g[0].key == k then 0
    else 1 + Find(g[1..], k)
  }

  /** `totals[k] += v` on a dictionary whose missing keys read as 0. */
  function Upsert(g: seq<Entry>, k: string, v: real): (r: seq<Entry>)
    ensures |r| == if Find(g, k) < |g| then |g| else |g| + 1
    ensures Find(g, k) < |r| && r[Find(g, k)] == Entry(k, (if Find(g, k) < |g| then g[Find(g, k)].total else 0.0) + v)
    ensures forall j :: 0 <= j < |g| && g[j].key != k ==> r[j] == g[j]
  {
    var i := Find(g, k);
    if i < |g| then g[i := Entry(k, g[i].total + v)] else g + [Entry(k, 0.0 + v)]
  }

  /** The dictionary after adding each amount, given as an entry, to its key in turn. */
  function GroupSum(c: seq<Entry>): seq<Entry> {
    if c == [] then []
    else
      var p := c[|c| - 1];
      Upsert(GroupSum(c[..|c| - 1]), p.key, p.total)
  }

  /** Reference: the sum of the amounts given for `k`. */
  function Total(c: seq<Entry>, k: string): real {
    if c == [] then 0.0 else (if c[0].key == k then c[0].total else 0.0) + Total(c[1..], k)
  }

  /** Reference: the position of the first amount given for `k`, or the length when there is none. */
  function FirstIndex(c: seq<Entry>, k: string): nat {
    if c == [] then 0 else if c[0].key == k then 0 else 1 + FirstIndex(c[1..], k)
  }

  /**
    `g` is the grouping of `c`: one entry per key of `c`, each holding the sum of
    that key's amounts, the keys ordered by their first appearance in `c`.
  */
  ghost predicate Groups(g: seq<Entry>, c: seq<Entry>) {
    Summed(g, c) && Covered(g, c) && FirstSeenOrder(g, c)
  }

  /** Every entry's key occurs in `c` and the entry holds the sum of its amounts. */
  ghost predicate Summed(g: seq<Entry>, c: seq<Entry>) {
    forall i :: 0 <= i < |g| ==> FirstIndex(c, g[i].key) < |c| && g[i].total == Total(c, g[i].key)
  }

  /** Every key of `c` has an entry. */
  ghost predicate Covered(g: seq<Entry>, c: seq<Entry>) {
    forall k :: FirstIndex(c, k) < |c| ==> HasKey(g, k)
  }

  /** The entries are in the order their keys first appear in `c`. */
  ghost predicate FirstSeenOrder(g: seq<Entry>, c: seq<Entry>) {
    forall i, j :: 0 <= i < j < |g| ==> FirstIndex(c, g[i].key) < FirstIndex(c, g[j].key)
  }

  lemma {:induction false} FirstIndexBound(c: seq<Entry>, k: string)
    ensures FirstIndex(c, k) <= |c|
    ensures FirstIndex(c, k) < |c| ==> c[FirstIndex(c, k)].key == k
  {
    if c != [] && c[0].key != k {
      FirstIndexBound(c[1..], k);
    }
  }

  lemma {:induction false} FirstIndexSnoc(c: seq<Entry>, p: Entry, k: string)
    ensures FirstIndex(c + [p], k) ==
      if FirstIndex(c, k) < |c| then FirstIndex(c, k) else if p.key == k then |c| else |c| + 1
  {
    FirstIndexBound(c, k);
    if c == [] {
      assert c + [p] == [p];
    } else {
      assert (c + [p])[1..] == c[1..] + [p];
      FirstIndexSnoc(c[1..], p, k);
    }
  }

  lemma {:induction false} TotalSnoc(c: seq<Entry>, p: Entry, k: string)
    ensures Total(c + [p], k) == Total(c, k) + (if p.key == k then p.total else 0.0)
  {
    if c == [] {
      assert c + [p] == [p];
    } else {
      assert (c + [p])[1..] == c[1..] + [p];
      TotalSnoc(c[1..], p, k);
    }
  }

  lemma {:induction false} TotalOfAbsent(c: seq<Entry>, k: string)
    requires FirstIndex(c, k) == |c|
    ensures Total(c, k) == 0.0
  {
    if c != [] {
      TotalOfAbsent(c[1..], k);
    }
  }

  /** How one more amount changes the reference functions. */
  lemma SnocFacts(c: seq<Entry>, p: Entry)
    ensures forall k ::
      FirstIndex(c + [p], k) == if FirstIndex(c, k) < |c| then FirstIndex(c, k) else if p.key == k then |c| else |c| + 1
    ensures forall k :: Total(c + [p], k) == Total(c, k) + (if p.key == k then p.total else 0.0)
  {
    forall k ensures FirstIndex(c + [p], k) ==
      (if FirstIndex(c, k) < |c| then FirstIndex(c, k) else if p.key == k then |c| else |c| + 1)
    {
      FirstIndexSnoc(c, p, k);
    }
    forall k ensures Total(c + [p], k) == Total(c, k) + (if p.key == k then p.total else 0.0) {
      TotalSnoc(c, p, k);
    }
  }

  /** After an in-place update the keys, and so their first positions, are unchanged. */
  lemma UpsertPresentKeys(g: seq<Entry>, c: seq<Entry>, p: Entry)
    requires Groups(g, c)
    requires Find(g, p.key) < |g|
    ensures |Upsert(g, p.key, p.total)| == |g|
    ensures forall m :: 0 <= m < |g| ==> Upsert(g, p.key, p.total)[m].key == g[m].key
    ensures forall m :: 0 <= m < |g| ==> FirstIndex(c + [p], g[m].key) == FirstIndex(c, g[m].key)
  {
    forall m | 0 <= m < |g| ensures FirstIndex(c + [p], g[m].key) == FirstIndex(c, g[m].key) {
      FirstIndexSnoc(c, p, g[m].key);
    }
  }

  /** The updated entry holds the new total; the others are untouched. */
  lemma UpsertPresentTotals(g: seq<Entry>, c: seq<Entry>, p: Entry)
    requires Groups(g, c)
    requires Find(g, p.key) < |g|
    ensures forall m :: 0 <= m < |g| ==> Upsert(g, p.key, p.total)[m].total == Total(c + [p], g[m].key)
  {
    var i := Find(g, p.key);
    var r := Upsert(g, p.key, p.total);
    forall m | 0 <= m < |g| ensures r[m].total == Total(c + [p], g[m].key) {
      TotalSnoc(c, p, g[m].key);
      if m == i {
        assert r[m].total == g[i].total + p.total;
      } else {
        assert g[m].key != p.key by {
          assert FirstIndex(c, g[m].key) != FirstIndex(c, g[i].key);
        }
      }
    }
  }

  /** Adding to a key already present updates its entry in place. */
  lemma UpsertPresent(g: seq<Entry>, c: seq<Entry>, p: Entry)
    requires Groups(g, c)
    requires Find(g, p.key) < |g|
    ensures Groups(Upsert(g, p.key, p.total), c + [p])
  {
    var r := Upsert(g, p.key, p.total);
    UpsertPresentKeys(g, c, p);
    UpsertPresentTotals(g, c, p);
    forall k | FirstIndex(c + [p], k) < |c + [p]| ensures HasKey(r, k) {
      FirstIndexSnoc(c, p, k);
      assert FirstIndex(c, k) < |c| by {
        assert FirstIndex(c, g[Find(g, p.key)].key) < |c|;
      }
      var j :| 0 <= j < |g| && g[j].key == k;
      assert r[j].key == k;
    }
  }

  /** A key without an entry has no amount yet. */
  lemma AbsentKey(g: seq<Entry>, c: seq<Entry>, k: string)
    requires Groups(g, c)
    requires Find(g, k) == |g|
    ensures FirstIndex(c, k) == |c| && Total(c, k) == 0.0
  {
    FirstIndexBound(c, k);
    assert !HasKey(g, k);
    assert FirstIndex(c, k) == |c|;
    TotalOfAbsent(c, k);
  }

  /** The entries of a grouping keep their first positions and totals when an amount for a new key arrives. */
  lemma UpsertAbsentOld(g: seq<Entry>, c: seq<Entry>, p: Entry)
    requires Groups(g, c)
    requires Find(g, p.key) == |g|
    ensures forall m :: 0 <= m < |g| ==>
      FirstIndex(c + [p], g[m].key) == FirstIndex(c, g[m].key) < |c| && Total(c + [p], g[m].key) == g[m].total
  {
    forall m | 0 <= m < |g|
      ensures FirstIndex(c + [p], g[m].key) == FirstIndex(c, g[m].key) < |c| && Total(c + [p], g[m].key) == g[m].total
    {
      FirstIndexSnoc(c, p, g[m].key);
      TotalSnoc(c, p, g[m].key);
    }
  }

  /** Adding to a new key appends an entry for it at the end. */
  lemma UpsertAbsent(g: seq<Entry>, c: seq<Entry>, p: Entry)
    requires Groups(g, c)
    requires Find(g, p.key) == |g|
    ensures Groups(Upsert(g, p.key, p.total), c + [p])
  {
    var r := Upsert(g, p.key, p.total);
    assert r == g + [Entry(p.key, 0.0 + p.total)];
    AbsentKey(g, c, p.key);
    FirstIndexSnoc(c, p, p.key);
    TotalSnoc(c, p, p.key);
    UpsertAbsentOld(g, c, p);
    assert Summed(r, c + [p]) by {
      forall m | 0 <= m < |r| ensures FirstIndex(c + [p], r[m].key) < |c + [p]| && r[m].total == Total(c + [p], r[m].key) {
        if m < |g| {
          assert r[m] == g[m];
        }
      }
    }
    assert FirstSeenOrder(r, c + [p]) by {
      forall i, j | 0 <= i < j < |r| ensures FirstIndex(c + [p], r[i].key) < FirstIndex(c + [p], r[j].key) {
        assert r[i] == g[i];
        if j < |g| {
          assert r[j] == g[j];
        }
      }
    }
    assert Covered(r, c + [p]) by {
      forall k | FirstIndex(c + [p], k) < |c + [p]| ensures HasKey(r, k) {
        FirstIndexSnoc(c, p, k);
        if FirstIndex(c, k) < |c| {
          var j :| 0 <= j < |g| && g[j].key == k;
          assert r[j].key == k;
        } else {
          assert r[|g|].key == k;
        }
      }
    }
  }

  /** Adding the pairs one by one builds their grouping. */
  lemma {:induction false} GroupSumGroups(c: seq<Entry>)
    ensures Groups(GroupSum(c), c)
  {
    if c != [] {
      var init, p := c[..|c| - 1], c[|c| - 1];
      GroupSumGroups(init);
      assert c == init + [p];
      if Find(GroupSum(init), p.key) < |GroupSum(init)| {
        UpsertPresent(GroupSum(init), init, p);
      } else {
        UpsertAbsent(GroupSum(init), init, p);
      }
    }
  }

  /** A grouping is empty exactly when there was nothing to add, and its keys are distinct. */
  lemma GroupsShape(g: seq<Entry>, c: seq<Entry>)
    requires Groups(g, c)
    ensures g == [] <==> c == []
    ensures forall i, j :: 0 <= i < j < |g| ==> g[i].key != g[j].key
  {
    if c != [] {
      assert FirstIndex(c, c[0].key) == 0;
      assert HasKey(g, c[0].key);
    }
    if g != [] {
      assert FirstIndex(c, g[0].key) < |c|;
    }
  }

  /** A key has a first position exactly when some amount is given for it. */
  lemma {:induction false} FirstIndexFound(c: seq<Entry>, k: string)
    ensures FirstIndex(c, k) < |c| <==> exists j :: 0 <= j < |c| && c[j].key == k
  {
    FirstIndexBound(c, k);
    if c != [] && c[0].key != k {
      FirstIndexFound(c[1..], k);
      if exists j :: 0 <= j < |c| && c[j].key == k {
        var j :| 0 <= j < |c| && c[j].key == k;
        assert c[1..][j - 1].key == k;
      }
    }
  }

  /** One more amount is one more `+=` on the dictionary built so far. */
  lemma GroupSumSnoc(c: seq<Entry>, p: Entry)
    ensures GroupSum(c + [p]) == Upsert(GroupSum(c), p.key, p.total)
  {
    assert (c + [p])[..|c|] == c;
  }
}
