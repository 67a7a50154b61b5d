// Ordering of text and sorting by a text key. Python compares str values and
// SQLite's default BINARY collation compares UTF-8 bytes; both amount to
// lexicographic order by code point, which is what LexLe is.
module Ordering {

  predicate LexLe(a: string, b: string)
    decreases |a|
  {
    a == [] || (b != [] && (a[0] < b[0] || (a[0] == b[0] && LexLe(a[1..], b[1..]))))
  }

  predicate LexLt(a: string, b: string) {
    LexLe(a, b) && a != b
  }

  lemma {:induction false} LexLeTotal(a: string, b: string)
    ensures LexLe(a, b) || LexLe(b, a)
    decreases |a|
  {
    if a != [] && b != [] && a[0] == b[0] {
      LexLeTotal(a[1..], b[1..]);
    }
  }

  lemma {:induction false} LexLeTransitive(a: string, b: string, c: string)
    requires LexLe(a, b) && LexLe(b, c)
    ensures LexLe(a, c)
    decreases |a|
  {
    if a != [] && a[0] == b[0] && b[0] == c[0] {
      LexLeTransitive(a[1..], b[1..], c[1..]);
    }
  }

  lemma {:induction false} LexLeAntisymmetric(a: string, b: string)
    requires LexLe(a, b) && LexLe(b, a)
    ensures a == b
    decreases |a|
  {
    if a != [] {
      LexLeAntisymmetric(a[1..], b[1..]);
      assert a == [a[0]] + a[1..] && b == [b[0]] + b[1..];
    }
  }

  lemma LexLeReflexive(a: string)
    ensures LexLe(a, a)
  {
  }

  predicate Distinct<T(==)>(s: seq<T>) {
    forall i, j :: 0 <= i < j < |s| ==> s[i] != s[j]
  }

  ghost predicate SortedBy<T>(s: seq<T>, key: T -> string) {
    forall i, j :: 0 <= i < j < |s| ==> LexLe(key(s[i]), key(s[j]))
  }

  /** Strictly ascending: sorted with no name repeated. */
  ghost predicate StrictlyAscending(s: seq<string>) {
    forall i, j :: 0 <= i < j < |s| ==> LexLt(s[i], s[j])
  }

  /** Inserts `x` after every element whose key is not greater than its own. */
  function InsertBy<T>(x: T, s: seq<T>, key: T -> string): (r: seq<T>)
    ensures multiset(r) == multiset(s) + multiset{x}
  {
    if s == [] then [x]
    else if LexLt(key(x), key(s[0])) then [x] + s
    else
      assert s == [s[0]] + s[1..];
      [s[0]] + InsertBy(x, s[1..], key)
  }

  lemma {:induction false} InsertBySorted<T>(x: T, s: seq<T>, key: T -> string)
    requires SortedBy(s, key)
    ensures SortedBy(InsertBy(x, s, key), key)
  {
    if s != [] && !LexLt(key(x), key(s[0])) {
      var rest := InsertBy(x, s[1..], key);
      InsertBySorted(x, s[1..], key);
      LexLeTotal(key(x), key(s[0]));
      forall y | y in multiset(rest) ensures LexLe(key(s[0]), key(y)) {
        assert y in multiset(s[1..]) + multiset{x};
        if y != x {
          assert y in s[1..];
        }
      }
      forall j | 0 <= j < |rest| ensures LexLe(key(s[0]), key(rest[j])) {
        assert rest[j] in multiset(rest);
      }
    } else if s != [] {
      forall i | 0 <= i < |s| ensures LexLe(key(x), key(s[i])) {
        if i > 0 {
          LexLeTransitive(key(x), key(s[0]), key(s[i]));
        }
      }
    }
  }

  /** Insertion sort by key; elements with equal keys keep their input order. */
  function SortBy<T>(s: seq<T>, key: T -> string): (r: seq<T>)
    ensures multiset(r) == multiset(s)
    ensures SortedBy(r, key)
  {
    if s == [] then []
    else
      var init := SortBy(s[..|s| - 1], key);
      InsertBySorted(s[|s| - 1], init, key);
      assert s == s[..|s| - 1] + [s[|s| - 1]];
      InsertBy(s[|s| - 1], init, key)
  }

  lemma {:induction false} DistinctCounts<T>(s: seq<T>, v: T)
    requires Distinct(s)
    ensures multiset(s)[v] <= 1
  {
    if s != [] {
      var init := s[..|s| - 1];
      DistinctCounts(init, v);
      assert s == init + [s[|s| - 1]];
      if v == s[|s| - 1] {
        assert v !in init;
      }
    }
  }

  /** A permutation of a sequence without repetitions has no repetitions either. */
  lemma PermutationDistinct<T>(s: seq<T>, r: seq<T>)
    requires Distinct(s) && multiset(r) == multiset(s)
    ensures Distinct(r)
  {
    forall i, j | 0 <= i < j < |r| ensures r[i] != r[j] {
      DistinctCounts(s, r[i]);
      assert r == r[..j] + r[j..];
      assert r[i] in r[..j];
    }
  }

  lemma HeadIsMember<T>(s: seq<T>)
    ensures |s| > 0 ==> s[0] in s
  {
  }

  /** Listing a set of names in strictly ascending order can be done in one way only. */
  lemma {:induction false} StrictlyAscendingUnique(a: seq<string>, b: seq<string>)
    requires StrictlyAscending(a) && StrictlyAscending(b)
    requires forall k :: k in a <==> k in b
    ensures a == b
    decreases |a|
  {
    if a == [] {
      HeadIsMember(b);
    } else {
      assert a[0] in b;
      assert b != [];
      assert b[0] in a;
      var i :| 0 <= i < |a| && a[i] == b[0];
      var j :| 0 <= j < |b| && b[j] == a[0];
      LexLeReflexive(a[0]);
      LexLeReflexive(b[0]);
      assert LexLe(a[0], a[i]);
      assert LexLe(b[0], b[j]);
      LexLeAntisymmetric(a[0], b[0]);
      forall k ensures k in a[1..] <==> k in b[1..] {
        if k in a[1..] {
          var m :| 1 <= m < |a| && a[m] == k;
          assert k != a[0];
          assert k in b;
          var n :| 0 <= n < |b| && b[n] == k;
          assert n != 0;
          assert b[n] in b[1..];
        }
        if k in b[1..] {
          var n :| 1 <= n < |b| && b[n] == k;
          assert k != b[0];
          assert k in a;
          var m :| 0 <= m < |a| && a[m] == k;
          assert m != 0;
          assert a[m] in a[1..];
        }
      }
      StrictlyAscendingUnique(a[1..], b[1..]);
      assert a == [a[0]] + a[1..] && b == [b[0]] + b[1..];
    }
  }
}
