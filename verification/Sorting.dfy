/** Stable sorting and the orders the program sorts by.

    Rust's `sort` and `sort_by` and JavaScript's `Array.prototype.sort` are stable library sorts;
    they are modelled by the function SortBy, and everything the other modules use about them is
    proved here: that it permutes, sorts, keeps what is sorted already, and is determined when the
    order is antisymmetric and nothing occurs twice. */
module Sorting {

  ghost predicate TotalPreorder<T(!new)>(le: (T, T) -> bool) {
    && (forall x, y :: le(x, y) || le(y, x))
    && (forall x, y, z :: le(x, y) && le(y, z) ==> le(x, z))
  }

  ghost predicate SortedBy<T>(s: seq<T>, le: (T, T) -> bool) {
    forall i, j | 0 <= i < j < |s| :: le(s[i], s[j])
  }

  ghost predicate NoDuplicates<T>(s: seq<T>) {
    forall i, j | 0 <= i < j < |s| :: s[i] != s[j]
  }

  /** Places `x` before the first element it does not exceed. */
  function InsertBy<T>(x: T, s: seq<T>, le: (T, T) -> bool): seq<T> {
    if s == [] || le(x, s[0]) then [x] + s else [s[0]] + InsertBy(x, s[1..], le)
  }

  function SortBy<T>(s: seq<T>, le: (T, T) -> bool): seq<T> {
    if s == [] then [] else InsertBy(s[0], SortBy(s[1..], le), le)
  }

  function Filter<T>(s: seq<T>, p: T -> bool): seq<T> {
    if s == [] then [] else (if p(s[0]) then [s[0]] else []) + Filter(s[1..], p)
  }

  lemma {:induction false} FilterMembers<T>(s: seq<T>, p: T -> bool)
    ensures |Filter(s, p)| <= |s|
    ensures forall x :: x in Filter(s, p) <==> x in s && p(x)
  {
    if s != [] {
      FilterMembers(s[1..], p);
      assert s == [s[0]] + s[1..];
    }
  }

  lemma FilterMember<T>(s: seq<T>, p: T -> bool, x: T)
    requires x in Filter(s, p)
    ensures x in s
  {
    FilterMembers(s, p);
  }

  lemma {:induction false} FilterKeepsSorted<T>(s: seq<T>, p: T -> bool, le: (T, T) -> bool)
    requires SortedBy(s, le)
    ensures SortedBy(Filter(s, p), le)
  {
    if s != [] {
      var tail := s[1..];
      var rest := Filter(tail, p);
      FilterKeepsSorted(tail, p, le);
      forall j | 0 <= j < |rest| ensures le(s[0], rest[j]) {
        FilterMember(tail, p, rest[j]);
        var i :| 0 <= i < |tail| && tail[i] == rest[j];
        assert le(s[0], s[i + 1]);
      }
    }
  }

  lemma {:induction false} InsertByPermutes<T>(x: T, s: seq<T>, le: (T, T) -> bool)
    ensures multiset(InsertBy(x, s, le)) == multiset{x} + multiset(s)
  {
    if s == [] || le(x, s[0]) {
    } else {
      assert s == [s[0]] + s[1..];
      InsertByPermutes(x, s[1..], le);
    }
  }

  lemma {:induction false} SortByPermutes<T>(s: seq<T>, le: (T, T) -> bool)
    ensures multiset(SortBy(s, le)) == multiset(s)
  {
    if s != [] {
      assert s == [s[0]] + s[1..];
      SortByPermutes(s[1..], le);
      InsertByPermutes(s[0], SortBy(s[1..], le), le);
    }
  }

  lemma {:induction false} InsertBySorts<T(!new)>(x: T, s: seq<T>, le: (T, T) -> bool)
    requires TotalPreorder(le) && SortedBy(s, le)
    ensures SortedBy(InsertBy(x, s, le), le)
  {
    if s == [] || le(x, s[0]) {
    } else {
      InsertBySorts(x, s[1..], le);
      var rest := InsertBy(x, s[1..], le);
      forall j | 0 <= j < |rest| ensures le(s[0], rest[j]) {
        InsertByPermutes(x, s[1..], le);
        assert rest[j] in multiset(rest);
        assert rest[j] == x || rest[j] in s[1..];
      }
    }
  }

  lemma {:induction false} SortBySorts<T(!new)>(s: seq<T>, le: (T, T) -> bool)
    requires TotalPreorder(le)
    ensures SortedBy(SortBy(s, le), le)
  {
    if s != [] {
      SortBySorts(s[1..], le);
      InsertBySorts(s[0], SortBy(s[1..], le), le);
    }
  }

  lemma SortByKeepsMembers<T>(s: seq<T>, le: (T, T) -> bool)
    ensures |SortBy(s, le)| == |s|
    ensures forall x :: x in SortBy(s, le) <==> x in s
  {
    SortByPermutes(s, le);
    assert |multiset(SortBy(s, le))| == |multiset(s)|;
    forall x ensures x in SortBy(s, le) <==> x in s {
      assert x in SortBy(s, le) <==> x in multiset(SortBy(s, le));
      assert x in s <==> x in multiset(s);
    }
  }

  lemma {:induction false} NoDuplicatesByCount<T>(s: seq<T>)
    ensures NoDuplicates(s) <==> forall x :: multiset(s)[x] <= 1
  {
    if s != [] {
      var t := s[1..];
      assert s == [s[0]] + t;
      NoDuplicatesByCount(t);
      if NoDuplicates(s) {
        assert NoDuplicates(t);
        assert s[0] !in t;
      } else {
        var i, j :| 0 <= i < j < |s| && s[i] == s[j];
        if i == 0 {
          assert t[j - 1] == s[0];
          assert multiset(s)[s[0]] >= 2;
        } else {
          assert t[i - 1] == t[j - 1];
          var x :| multiset(t)[x] > 1;
          assert multiset(s)[x] > 1;
        }
      }
    }
  }

  lemma NoDuplicatesAppend<T>(a: seq<T>, b: seq<T>)
    requires |a| <= 1 || NoDuplicates(a)
    requires |b| <= 1 || NoDuplicates(b)
    requires forall x | x in b :: x !in a
    ensures NoDuplicates(a + b)
  {
    var s := a + b;
    forall i, j | 0 <= i < j < |s| ensures s[i] != s[j] {
      if i < |a| <= j { assert s[j] in b && s[i] in a; }
    }
  }

  lemma SortByKeepsNoDuplicates<T>(s: seq<T>, le: (T, T) -> bool)
    requires NoDuplicates(s)
    ensures NoDuplicates(SortBy(s, le))
  {
    SortByPermutes(s, le);
    NoDuplicatesByCount(s);
    NoDuplicatesByCount(SortBy(s, le));
  }

  lemma {:induction false} SortByKeepsSorted<T>(s: seq<T>, le: (T, T) -> bool)
    requires SortedBy(s, le)
    ensures SortBy(s, le) == s
  {
    if s != [] {
      SortByKeepsSorted(s[1..], le);
    }
  }

  /** In a sequence sorted but for one element that comes strictly first, sorting only moves that element. */
  lemma {:induction false} SortMovesToFront<T>(before: seq<T>, x: T, after: seq<T>, le: (T, T) -> bool)
    requires SortedBy(before + after, le)
    requires forall y <- before + after :: le(x, y) && !le(y, x)
    ensures SortBy(before + [x] + after, le) == [x] + before + after
  {
    hide SortedBy;
    if before == [] {
      assert before + [x] + after == [x] + after && before + after == after;
      SortOfFirst(x, after, le);
    } else {
      var first, rest := before[0], before[1..];
      assert before + after == [first] + (rest + after);
      SortedTail(first, rest + after, le);
      SortMovesToFront(rest, x, after, le);
      assert (before + [x] + after)[1..] == rest + [x] + after;
      assert [x] + rest + after == [x] + (rest + after);
      InsertSecond(first, x, rest + after, le);
      assert [x, first] + (rest + after) == [x] + before + after;
    }
  }

  lemma SortOfFirst<T>(x: T, after: seq<T>, le: (T, T) -> bool)
    requires SortedBy(after, le)
    requires forall y <- after :: le(x, y)
    ensures SortBy([x] + after, le) == [x] + after
  {
    assert ([x] + after)[1..] == after;
    SortByKeepsSorted(after, le);
  }

  lemma SortedTail<T>(first: T, tail: seq<T>, le: (T, T) -> bool)
    requires SortedBy([first] + tail, le)
    ensures SortedBy(tail, le)
  {
    forall i, j | 0 <= i < j < |tail| ensures le(tail[i], tail[j]) {
      assert ([first] + tail)[i + 1] == tail[i] && ([first] + tail)[j + 1] == tail[j];
    }
  }

  lemma InsertSecond<T>(x: T, first: T, tail: seq<T>, le: (T, T) -> bool)
    requires SortedBy([x] + tail, le) && !le(x, first)
    ensures InsertBy(x, [first] + tail, le) == [first, x] + tail
  {
    assert ([first] + tail)[1..] == tail;
    if tail != [] {
      assert ([x] + tail)[0] == x && ([x] + tail)[1] == tail[0];
    }
    assert InsertBy(x, tail, le) == [x] + tail;
  }

  /** Two sequences sorted by an antisymmetric order and without duplicates are
      equal as soon as they have the same members. */
  lemma {:induction false} SortedIsUnique<T(!new)>(a: seq<T>, b: seq<T>, le: (T, T) -> bool)
    requires forall x, y :: le(x, y) && le(y, x) ==> x == y
    requires SortedBy(a, le) && SortedBy(b, le) && NoDuplicates(a) && NoDuplicates(b)
    requires forall x :: x in a <==> x in b
    ensures a == b
  {
    if a == [] || b == [] {
      assert multiset(a) == multiset(b) by {
        assert forall x :: x in multiset(a) <==> x in a;
        assert forall x :: x in multiset(b) <==> x in b;
      }
      assert |multiset(a)| == |a| && |multiset(b)| == |b|;
    } else {
      assert a[0] in b;
      assert b[0] in a;
      assert a[0] == b[0];
      forall x ensures x in a[1..] <==> x in b[1..] {
        assert a == [a[0]] + a[1..] && b == [b[0]] + b[1..];
        if x in a[1..] { assert x in b && x != b[0]; }
        if x in b[1..] { assert x in a && x != a[0]; }
      }
      SortedIsUnique(a[1..], b[1..], le);
    }
  }

  /** Lexicographic order on code points, which is the byte order of the UTF-8 encodings. */
  predicate StringLe(a: string, b: string) {
    a == [] || (b != [] && (a[0] < b[0] || (a[0] == b[0] && StringLe(a[1..], b[1..]))))
  }

  lemma {:induction false} StringLeTotal(a: string, b: string)
    ensures StringLe(a, b) || StringLe(b, a)
    ensures StringLe(a, b) && StringLe(b, a) ==> a == b
  {
    if a != [] && b != [] && a[0] == b[0] {
      StringLeTotal(a[1..], b[1..]);
      assert a == [a[0]] + a[1..] && b == [b[0]] + b[1..];
    }
  }

  lemma {:induction false} StringLeTransitive(a: string, b: string, c: string)
    requires StringLe(a, b) && StringLe(b, c)
    ensures StringLe(a, c)
  {
    if a != [] && a[0] == b[0] && b[0] == c[0] {
      StringLeTransitive(a[1..], b[1..], c[1..]);
    }
  }

  lemma StringLeOrders()
    ensures TotalPreorder(StringLe)
    ensures forall x, y :: StringLe(x, y) && StringLe(y, x) ==> x == y
  {
    forall x, y ensures StringLe(x, y) || StringLe(y, x)
    { StringLeTotal(x, y); }
    forall x, y | StringLe(x, y) && StringLe(y, x) ensures x == y
    { StringLeTotal(x, y); }
    forall x, y, z | StringLe(x, y) && StringLe(y, z) ensures StringLe(x, z)
    { StringLeTransitive(x, y, z); }
  }
}
