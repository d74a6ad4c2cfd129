/** Datatypes and sequence facts that several modules share. */
module Common {

  datatype Option<+T> = None | Some(value: T)

  /** The earlier of two optional instants; an absent one never wins. */
  function Earlier(a: Option<int>, b: Option<int>): (r: Option<int>)
    ensures r.None? <==> a.None? && b.None?
    ensures r.Some? ==> r == a || r == b
    ensures a.Some? ==> r.value <= a.value
    ensures b.Some? ==> r.value <= b.value
  {
    if a.None? then b
    else if b.None? || a.value <= b.value then a
    else b
  }

  /** A member of a set that has one. */
  lemma Member<T>(s: set<T>) returns (x: T)
    requires s != {}
    ensures x in s
  {
    x :| x in s;
  }

  lemma {:induction false} SubsetSize(a: set<int>, b: set<int>)
    requires a <= b
    ensures |a| <= |b|
  {
    if a != {} {
      var x := Member(a);
      SubsetSize(a - {x}, b - {x});
    }
  }

  ghost predicate Distinct<T>(s: seq<T>) {
    forall i, j :: 0 <= i < j < |s| ==> s[i] != s[j]
  }

  ghost predicate Ascending(s: seq<int>) {
    forall i, j :: 0 <= i < j < |s| ==> s[i] < s[j]
  }

  /** Pigeonhole: distinct members of a finite set are no more than the set has. */
  lemma {:induction false} DistinctFits<T>(s: seq<T>, pool: set<T>)
    requires Distinct(s)
    requires forall i :: 0 <= i < |s| ==> s[i] in pool
    ensures |s| <= |pool|
  {
    if s != [] {
      var n := |s| - 1;
      DistinctFits(s[..n], pool - {s[n]});
    }
  }

  /** A multiset counts a value twice exactly when two positions hold it. */
  lemma {:induction false} CountedTwice<T>(s: seq<T>, x: T)
    ensures multiset(s)[x] >= 2 <==> exists i, j :: 0 <= i < j < |s| && s[i] == x && s[j] == x
  {
    if s != [] {
      var n := |s| - 1;
      assert s == s[..n] + [s[n]];
      CountedTwice(s[..n], x);
      if multiset(s)[x] >= 2 && !(exists i, j :: 0 <= i < j < n && s[i] == x && s[j] == x) {
        assert forall i, j :: 0 <= i < j < n ==> s[..n][i] == s[i] && s[..n][j] == s[j];
        assert s[n] == x && x in multiset(s[..n]);
        assert x in s[..n];
        var i :| 0 <= i < n && s[..n][i] == x;
        assert s[i] == x;
      } else if i, j :| 0 <= i < j < |s| && s[i] == x && s[j] == x {
        if j < n {
          assert s[..n][i] == x && s[..n][j] == x;
        } else {
          assert s[..n][i] == x;
          assert x in multiset(s[..n]);
        }
      }
    }
  }

  function SeqSum(s: seq<real>): real {
    if s == [] then 0.0 else SeqSum(s[..|s| - 1]) + s[|s| - 1]
  }

  // ---------------------------------------------------------------------
  // Stable sorting, as the library sort performs it
  // ---------------------------------------------------------------------

  ghost predicate SortedBy<T>(s: seq<T>, key: T -> int) {
    forall i, j :: 0 <= i < j < |s| ==> key(s[i]) <= key(s[j])
  }

  /** Inserts `x` after every element whose key is not greater. */
  function InsertSorted<T>(s: seq<T>, x: T, key: T -> int): (r: seq<T>)
    ensures |r| == |s| + 1
  {
    if s == [] || key(s[|s| - 1]) <= key(x) then s + [x]
    else InsertSorted(s[..|s| - 1], x, key) + [s[|s| - 1]]
  }

  function Sort<T>(s: seq<T>, key: T -> int): (r: seq<T>)
    ensures |r| == |s|
  {
    if s == [] then [] else InsertSorted(Sort(s[..|s| - 1], key), s[|s| - 1], key)
  }

  lemma {:induction false} InsertAddsOne<T>(s: seq<T>, x: T, key: T -> int)
    ensures multiset(InsertSorted(s, x, key)) == multiset(s) + multiset{x}
  {
    if s != [] && key(s[|s| - 1]) > key(x) {
      assert s == s[..|s| - 1] + [s[|s| - 1]];
      InsertAddsOne(s[..|s| - 1], x, key);
    }
  }

  /** Sorting keeps every element as often as it occurs. */
  lemma {:induction false} SortPermutes<T>(s: seq<T>, key: T -> int)
    ensures multiset(Sort(s, key)) == multiset(s)
  {
    if s != [] {
      assert s == s[..|s| - 1] + [s[|s| - 1]];
      SortPermutes(s[..|s| - 1], key);
      InsertAddsOne(Sort(s[..|s| - 1], key), s[|s| - 1], key);
    }
  }

  lemma {:induction false} InsertKeepsSorted<T>(s: seq<T>, x: T, key: T -> int)
    requires SortedBy(s, key)
    ensures SortedBy(InsertSorted(s, x, key), key)
    ensures forall i :: 0 <= i < |s| + 1 ==>
              key(InsertSorted(s, x, key)[i]) <= key(x) || (s != [] && key(InsertSorted(s, x, key)[i]) <= key(s[|s| - 1]))
  {
    if s != [] && key(s[|s| - 1]) > key(x) {
      InsertKeepsSorted(s[..|s| - 1], x, key);
    }
  }

  lemma {:induction false} SortIsSorted<T>(s: seq<T>, key: T -> int)
    ensures SortedBy(Sort(s, key), key)
  {
    if s != [] {
      SortIsSorted(s[..|s| - 1], key);
      InsertKeepsSorted(Sort(s[..|s| - 1], key), s[|s| - 1], key);
    }
  }

  /** Sorting leaves a sorted sequence alone. */
  lemma {:induction false} SortFixesSorted<T>(s: seq<T>, key: T -> int)
    requires SortedBy(s, key)
    ensures Sort(s, key) == s
  {
    if s != [] {
      var n := |s| - 1;
      SortFixesSorted(s[..n], key);
      assert s == s[..n] + [s[n]];
      if n > 0 {
        assert s[..n][n - 1] == s[n - 1] && key(s[n - 1]) <= key(s[n]);
      }
    }
  }

  lemma SortKeepsDistinct<T>(s: seq<T>, key: T -> int)
    requires Distinct(s)
    ensures Distinct(Sort(s, key))
  {
    var r := Sort(s, key);
    SortPermutes(s, key);
    forall i, j | 0 <= i < j < |r| ensures r[i] != r[j] {
      if r[i] == r[j] {
        CountedTwice(r, r[i]);
        CountedTwice(s, r[i]);
        assert false;
      }
    }
  }

  lemma SameMembers<T>(s: seq<T>, r: seq<T>)
    requires multiset(s) == multiset(r)
    ensures forall x :: x in s <==> x in r
  {
    forall x ensures x in s <==> x in r {
      assert x in s <==> x in multiset(s);
      assert x in r <==> x in multiset(r);
    }
  }
}
