/**
  Python's stable sort by a string key (`list.sort(key=...)`, `sorted(...)`),
  given by insertion sort as its reference definition.
*/
module Sorting {
  import opened Text

  /** No element's key is smaller than the key of an element before it. */
  ghost predicate SortedBy<T>(s: seq<T>, key: T -> string) {
    forall i, j :: 0 <= i < j < |s| ==> !Less(key(s[j]), key(s[i]))
  }

  /** The elements whose key is `k`, in their order in `s`. */
  function Run<T>(s: seq<T>, key: T -> string, k: string): seq<T> {
    if s == [] then []
    else (if key(s[0]) == k then [s[0]] else []) + Run(s[1..], key, k)
  }

  /** Puts `x` after every element whose key is not greater than its own. */
  function Insert<T>(x: T, s: seq<T>, key: T -> string): seq<T> {
    if s == [] then [x]
    else if Less(key(x), key(s[0])) then [x] + s
    else [s[0]] + Insert(x, s[1..], key)
  }

  /** Inserts the elements one by one, in their original order. */
  function SortBy<T>(s: seq<T>, key: T -> string): seq<T> {
    if s == [] then [] else Insert(s[|s| - 1], SortBy(s[..|s| - 1], key), key)
  }

  lemma {:induction false} InsertPermutes<T>(x: T, s: seq<T>, key: T -> string)
    ensures multiset(Insert(x, s, key)) == multiset(s) + multiset{x}
  {
    if s != [] && !Less(key(x), key(s[0])) {
      InsertPermutes(x, s[1..], key);
      assert s == [s[0]] + s[1..];
    }
  }

  lemma {:induction false} RunAppend<T>(a: seq<T>, b: seq<T>, key: T -> string, k: string)
    ensures Run(a + b, key, k) == Run(a, key, k) + Run(b, key, k)
  {
    if a == [] {
      assert a + b == b;
    } else {
      var head := if key(a[0]) == k then [a[0]] else [];
      assert (a + b)[0] == a[0];
      assert (a + b)[1..] == a[1..] + b;
      assert Run(a + b, key, k) == head + Run(a[1..] + b, key, k);
      RunAppend(a[1..], b, key, k);
      assert Run(a, key, k) == head + Run(a[1..], key, k);
    }
  }

  lemma {:induction false} RunAbsent<T>(s: seq<T>, key: T -> string, k: string)
    requires forall i :: 0 <= i < |s| ==> key(s[i]) != k
    ensures Run(s, key, k) == []
  {
    if s != [] {
      RunAbsent(s[1..], key, k);
    }
  }

  lemma {:induction false} InsertSorted<T>(x: T, s: seq<T>, key: T -> string)
    requires SortedBy(s, key)
    ensures SortedBy(Insert(x, s, key), key)
  {
    if s == [] {
    } else if Less(key(x), key(s[0])) {
      var r := Insert(x, s, key);
      forall i, j | 0 <= i < j < |r| ensures !Less(key(r[j]), key(r[i])) {
        if i == 0 {
          var c, b, a := key(r[j]), key(s[0]), key(x);
          LessTotal(b, c);
          if Less(b, c) {
            LessTransitive(a, b, c);
          }
          LessAsymmetric(a, c);
        }
      }
    } else {
      InsertSorted(x, s[1..], key);
      InsertPermutes(x, s[1..], key);
      var t := Insert(x, s[1..], key);
      forall j | 0 <= j < |t| ensures !Less(key(t[j]), key(s[0])) {
        assert t[j] in multiset(t);
        if t[j] != x {
          assert t[j] in multiset(s[1..]);
          var m :| 0 <= m < |s[1..]| && s[1..][m] == t[j];
          assert s[m + 1] == t[j];
        }
      }
    }
  }

  lemma SortedTail<T>(s: seq<T>, key: T -> string)
    requires s != [] && SortedBy(s, key)
    ensures SortedBy(s[1..], key)
    ensures forall i :: 0 <= i < |s| ==> !Less(key(s[i]), key(s[0]))
  {
    forall i, j | 0 <= i < j < |s[1..]| ensures !Less(key(s[1..][j]), key(s[1..][i])) {
      assert s[1..][i] == s[i + 1] && s[1..][j] == s[j + 1];
    }
    forall i | 0 <= i < |s| ensures !Less(key(s[i]), key(s[0])) {
      if i == 0 {
        LessIrreflexive(key(s[0]));
      }
    }
  }

  lemma {:induction false} InsertRun<T>(x: T, s: seq<T>, key: T -> string, k: string)
    requires SortedBy(s, key)
    ensures Run(Insert(x, s, key), key, k) == Run(s, key, k) + (if key(x) == k then [x] else [])
  {
    if s == [] {
    } else if Less(key(x), key(s[0])) {
      var r := [x] + s;
      assert r[0] == x && r[1..] == s;
      if key(x) == k {
        SortedTail(s, key);
        forall i | 0 <= i < |s| ensures key(s[i]) != k {
          LessAsymmetric(k, key(s[0]));
        }
        RunAbsent(s, key, k);
      }
    } else {
      SortedTail(s, key);
      var t := Insert(x, s[1..], key);
      InsertRun(x, s[1..], key, k);
      var r := [s[0]] + t;
      assert r[0] == s[0] && r[1..] == t;
    }
  }

  /**
    The reference sort is a stable sort: ascending by key, a permutation, and
    elements with equal keys keep their relative order.
  */
  lemma {:induction false} SortByCorrect<T>(s: seq<T>, key: T -> string)
    ensures SortedBy(SortBy(s, key), key)
    ensures multiset(SortBy(s, key)) == multiset(s)
    ensures forall k :: Run(SortBy(s, key), key, k) == Run(s, key, k)
  {
    if s != [] {
      var init, last := s[..|s| - 1], s[|s| - 1];
      SortByCorrect(init, key);
      InsertSorted(last, SortBy(init, key), key);
      InsertPermutes(last, SortBy(init, key), key);
      assert s == init + [last];
      forall k ensures Run(SortBy(s, key), key, k) == Run(s, key, k) {
        InsertRun(last, SortBy(init, key), key, k);
        RunAppend(init, [last], key, k);
      }
    }
  }

  /** Two elements with one key give that key a run of at least two. */
  lemma {:induction false} RunOfRepeat<T>(s: seq<T>, key: T -> string, i: nat, j: nat)
    requires i < j < |s| && key(s[i]) == key(s[j])
    ensures |Run(s, key, key(s[i]))| >= 2
  {
    if i > 0 {
      RunOfRepeat(s[1..], key, i - 1, j - 1);
    } else {
      RunMember(s[1..], key, j - 1);
    }
  }

  lemma {:induction false} RunMember<T>(s: seq<T>, key: T -> string, j: nat)
    requires j < |s|
    ensures |Run(s, key, key(s[j]))| >= 1
  {
    if j > 0 {
      RunMember(s[1..], key, j - 1);
    }
  }

  /** Keys that are pairwise distinct have runs of at most one element. */
  lemma {:induction false} RunOfDistinct<T>(s: seq<T>, key: T -> string, k: string)
    requires forall i, j :: 0 <= i < j < |s| ==> key(s[i]) != key(s[j])
    ensures |Run(s, key, k)| <= 1
  {
    if s != [] {
      RunOfDistinct(s[1..], key, k);
      if key(s[0]) == k {
        RunAbsent(s[1..], key, k);
      }
    }
  }

  /** Sorting distinct keys yields strictly ascending keys. */
  lemma SortByDistinct<T>(s: seq<T>, key: T -> string)
    requires forall i, j :: 0 <= i < j < |s| ==> key(s[i]) != key(s[j])
    ensures var r := SortBy(s, key);
      forall i, j :: 0 <= i < j < |r| ==> Less(key(r[i]), key(r[j]))
  {
    var r := SortBy(s, key);
    SortByCorrect(s, key);
    forall i, j | 0 <= i < j < |r| ensures Less(key(r[i]), key(r[j])) {
      if key(r[i]) == key(r[j]) {
        RunOfRepeat(r, key, i, j);
        RunOfDistinct(s, key, key(r[i]));
      }
      LessTotal(key(r[i]), key(r[j]));
    }
  }
}
