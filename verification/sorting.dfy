/** Python's ordering of strings, `list.sort`/`sorted` with a key, and
    slicing `items[:n]`, as the core uses them. */
module Sorting {

  /** Python's `a <= b` on strings: code points compared lexicographically. */
  predicate StrLe(a: string, b: string)
    decreases |a|
  {
    a == [] || (b != [] && (a[0] < b[0] || (a[0] == b[0] && StrLe(a[1..], b[1..]))))
  }

  lemma {:induction false} StrLeTotal(a: string, b: string)
    ensures StrLe(a, b) || StrLe(b, a)
    decreases |a|
  {
    if a != [] && b != [] && a[0] == b[0] {
      StrLeTotal(a[1..], b[1..]);
    }
  }

  lemma {:induction false} StrLeTransitive(a: string, b: string, c: string)
    requires StrLe(a, b) && StrLe(b, c)
    ensures StrLe(a, c)
    decreases |a|
  {
    if a != [] && b != [] && c != [] && a[0] == b[0] == c[0] {
      StrLeTransitive(a[1..], b[1..], c[1..]);
    }
  }

  lemma {:induction false} StrLeAntisymmetric(a: string, b: string)
    requires StrLe(a, b) && StrLe(b, a)
    ensures a == b
    decreases |a|
  {
    if a != [] && b != [] {
      StrLeAntisymmetric(a[1..], b[1..]);
      assert a == [a[0]] + a[1..] && b == [b[0]] + b[1..];
    }
  }

  /** `le` is a total preorder: what a sort key compared with `<=` gives. */
  ghost predicate TotalPreorder<T(!new)>(le: (T, T) -> bool) {
    && (forall x, y :: le(x, y) || le(y, x))
    && (forall x, y, z :: le(x, y) && le(y, z) ==> le(x, z))
  }

  /** Python's string order is a total preorder. */
  lemma StrLeIsPreorder()
    ensures TotalPreorder(StrLe)
  {
    forall x, y
      ensures StrLe(x, y) || StrLe(y, x)
    {
      StrLeTotal(x, y);
    }
    forall x, y, z | StrLe(x, y) && StrLe(y, z)
      ensures StrLe(x, z)
    {
      StrLeTransitive(x, y, z);
    }
  }

  /** A sequence holding the elements of a set once each repeats none and
      holds nothing else. */
  lemma DistinctOfSet<T>(s: seq<T>, elems: set<T>)
    requires multiset(s) == multiset(elems)
    ensures forall i | 0 <= i < |s| :: s[i] in elems
    ensures forall x | x in elems :: x in s
    ensures forall i, j | 0 <= i < j < |s| :: s[i] != s[j]
  {
    forall i | 0 <= i < |s|
      ensures s[i] in elems
    {
      assert s[i] in multiset(s);
    }
    forall x | x in elems
      ensures x in s
    {
      assert x in multiset(s);
    }
    forall i, j | 0 <= i < j < |s|
      ensures s[i] != s[j]
    {
      var x := s[i];
      assert s == s[..i] + [s[i]] + s[i + 1..j] + [s[j]] + s[j + 1..];
      assert multiset(s)[x] == multiset(s[..i])[x] + 1 + multiset(s[i + 1..j])[x] + multiset{s[j]}[x] + multiset(s[j + 1..])[x];
      assert multiset(elems)[x] <= 1;
    }
  }

  /** The elements of a sequence, as a set. */
  function Elements<T>(s: seq<T>): set<T> {
    set x | x in s
  }

  /** No element occurs twice. */
  predicate Distinct<T(==)>(s: seq<T>) {
    forall i, j | 0 <= i < j < |s| :: s[i] != s[j]
  }

  /** A sequence that repeats nothing has as many elements as its set, and
      the same multiset. */
  lemma {:induction false} DistinctSeqSet<T>(s: seq<T>)
    requires forall i, j | 0 <= i < j < |s| :: s[i] != s[j]
    ensures multiset(s) == multiset(Elements(s))
    ensures |Elements(s)| == |s|
  {
    if s != [] {
      var n := |s| - 1;
      DistinctSeqSet(s[..n]);
      var front := Elements(s[..n]);
      assert s == s[..n] + [s[n]];
      assert Elements(s) == front + {s[n]};
      forall x | x in front
        ensures x != s[n]
      {
        var i :| 0 <= i < n && s[..n][i] == x;
        assert s[i] == x;
      }
    }
  }

  /** Each element is `le` every later one. */
  ghost predicate SortedBy<T>(s: seq<T>, le: (T, T) -> bool) {
    forall i, j | 0 <= i < j < |s| :: le(s[i], s[j])
  }

  /** Inserting `x` after the elements that come before it. */
  function Insert<T>(x: T, s: seq<T>, le: (T, T) -> bool): (r: seq<T>)
    ensures multiset(r) == multiset(s) + multiset{x}
    decreases |s|
  {
    if s == [] || le(x, s[0]) then [x] + s
    else
      assert s == [s[0]] + s[1..];
      [s[0]] + Insert(x, s[1..], le)
  }

  /** `items.sort(key=...)`: an insertion sort, stable like Python's. */
  function SortBy<T>(s: seq<T>, le: (T, T) -> bool): (r: seq<T>)
    ensures multiset(r) == multiset(s) && |r| == |s|
    decreases |s|
  {
    if s == [] then []
    else
      assert s == [s[0]] + s[1..];
      Insert(s[0], SortBy(s[1..], le), le)
  }

  lemma {:induction false} InsertSorted<T(!new)>(x: T, s: seq<T>, le: (T, T) -> bool)
    requires TotalPreorder(le) && SortedBy(s, le)
    ensures SortedBy(Insert(x, s, le), le)
    decreases |s|
  {
    if s != [] && !le(x, s[0]) {
      InsertSorted(x, s[1..], le);
      var rest := Insert(x, s[1..], le);
      forall y | y in rest
        ensures le(s[0], y)
      {
        assert y in multiset(rest);
        if y != x {
          assert y in multiset(s[1..]);
          var k :| 0 <= k < |s[1..]| && s[1..][k] == y;
          assert s[k + 1] == y;
        }
      }
      var r := [s[0]] + rest;
      forall i, j | 0 <= i < j < |r|
        ensures le(r[i], r[j])
      {
        if i == 0 {
          assert r[j] in rest;
        } else {
          assert r[i] == rest[i - 1] && r[j] == rest[j - 1];
        }
      }
    }
  }

  /** The sort's result is sorted. */
  lemma {:induction false} SortBySorted<T(!new)>(s: seq<T>, le: (T, T) -> bool)
    requires TotalPreorder(le)
    ensures SortedBy(SortBy(s, le), le)
    decreases |s|
  {
    if s != [] {
      SortBySorted(s[1..], le);
      InsertSorted(s[0], SortBy(s[1..], le), le);
    }
  }

  /** How many of `len` elements `items[:n]` keeps. */
  function SliceLen(len: nat, n: int): nat {
    if n >= 0 then (if n < len then n else len) else (if len + n > 0 then len + n else 0)
  }

  /** `items[:n]` with Python's slicing: a negative `n` drops elements from
      the end. */
  function Take<T>(s: seq<T>, n: int): (r: seq<T>)
    ensures |r| == SliceLen(|s|, n) <= |s|
    ensures r == s[..|r|]
  {
    if n >= 0 then (if n < |s| then s[..n] else s)
    else if |s| + n > 0 then s[..|s| + n]
    else []
  }

  /** After sorting, what a prefix keeps comes before what it drops. */
  lemma PrefixComesFirst<T>(s: seq<T>, le: (T, T) -> bool, n: nat, kept: T, dropped: T)
    requires SortedBy(s, le) && n <= |s|
    requires kept in s[..n] && dropped in s && dropped !in s[..n]
    ensures le(kept, dropped)
  {
    var i :| 0 <= i < n && s[i] == kept;
    assert s == s[..n] + s[n..];
    assert dropped in s[n..];
    var k :| 0 <= k < |s| - n && s[n..][k] == dropped;
    assert s[i] == kept && s[n + k] == dropped;
  }

  /** A prefix of a sorted sequence is sorted, and keeps no element that a
      later, dropped one comes before. */
  lemma TakeSorted<T>(s: seq<T>, le: (T, T) -> bool, n: int)
    requires SortedBy(s, le)
    ensures SortedBy(Take(s, n), le)
    ensures forall x, y | x in Take(s, n) && y in s && y !in Take(s, n) :: le(x, y)
  {
    var r := Take(s, n);
    assert r == s[..|r|];
    forall x, y | x in r && y in s && y !in r
      ensures le(x, y)
    {
      PrefixComesFirst(s, le, |r|, x, y);
    }
  }

  /** A prefix of an arrangement of a set repeats nothing, holds only
      elements of the set, and is as long as slicing the set's size says. */
  lemma TakeOfSet<T>(s: seq<T>, elems: set<T>, n: int)
    requires multiset(s) == multiset(elems)
    ensures Distinct(Take(s, n))
    ensures forall x | x in Take(s, n) :: x in elems
    ensures |Take(s, n)| == SliceLen(|elems|, n)
  {
    DistinctOfSet(s, elems);
    assert |s| == |multiset(s)| == |multiset(elems)| == |elems|;
    var r := Take(s, n);
    assert r == s[..|r|];
    forall i, j | 0 <= i < j < |r|
      ensures r[i] != r[j]
    {
      assert r[i] == s[i] && r[j] == s[j];
    }
    forall x | x in r
      ensures x in elems
    {
      var i :| 0 <= i < |r| && r[i] == x;
      assert s[i] == x;
    }
  }
}
