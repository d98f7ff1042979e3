/** `Array.prototype.sort` with the screens' comparators. Every comparator in the
    modelled code orders by a number first and breaks ties with `localeCompare`
    on a string, and the sort is stable (ECMAScript 2019). The model sorts by a
    key `(major, minor)` with a stable insertion sort: an element is inserted
    after every element whose key is not greater than its own. */
module Sorting {
  import opened Common

  datatype SortKey = SortKey(major: int, minor: string)

  /** The comparator is negative: `a.major - b.major`, then `a.minor.localeCompare(b.minor)`. */
  predicate KeyLess(a: SortKey, b: SortKey) {
    a.major < b.major || (a.major == b.major && LexLess(a.minor, b.minor))
  }

  lemma KeyLessIrreflexive(a: SortKey)
    ensures !KeyLess(a, a)
  {
    LexLessIrreflexive(a.minor);
  }

  lemma KeyLessTransitive(a: SortKey, b: SortKey, c: SortKey)
    requires KeyLess(a, b) && KeyLess(b, c)
    ensures KeyLess(a, c)
  {
    if a.major == b.major && b.major == c.major {
      LexLessTransitive(a.minor, b.minor, c.minor);
    }
  }

  /** No element is strictly smaller than one before it. */
  predicate SortedBy<T>(s: seq<T>, key: T -> SortKey) {
    forall i, j :: 0 <= i < j < |s| ==> !KeyLess(key(s[j]), key(s[i]))
  }

  function Insert<T>(x: T, s: seq<T>, key: T -> SortKey): (r: seq<T>)
    ensures multiset(r) == multiset(s) + multiset{x}
    ensures |r| == |s| + 1
  {
    if s == [] then [x]
    else if KeyLess(key(x), key(s[0])) then [x] + s
    else
      assert s == [s[0]] + s[1..];
      [s[0]] + Insert(x, s[1..], key)
  }

  /** The stable sort: each element in turn is inserted into the sorted prefix.
      The result is a permutation of the input. */
  function SortBy<T>(s: seq<T>, key: T -> SortKey): (r: seq<T>)
    ensures multiset(r) == multiset(s)
    ensures |r| == |s|
  {
    if s == [] then []
    else
      assert s == s[..|s| - 1] + [s[|s| - 1]];
      Insert(s[|s| - 1], SortBy(s[..|s| - 1], key), key)
  }

  /** The result of the sort is ordered by the comparator. */
  lemma {:induction false} SortBySorted<T>(s: seq<T>, key: T -> SortKey)
    ensures SortedBy(SortBy(s, key), key)
  {
    if s != [] {
      SortBySorted(s[..|s| - 1], key);
      InsertSorted(s[|s| - 1], SortBy(s[..|s| - 1], key), key);
    }
  }

  lemma {:induction false} InsertSorted<T>(x: T, s: seq<T>, key: T -> SortKey)
    requires SortedBy(s, key)
    ensures SortedBy(Insert(x, s, key), key)
  {
    if s != [] {
      var r := Insert(x, s, key);
      if KeyLess(key(x), key(s[0])) {
        forall i, j | 0 <= i < j < |r|
          ensures !KeyLess(key(r[j]), key(r[i]))
        {
          if i == 0 {
            assert r[j] == s[j - 1];
            if KeyLess(key(r[j]), key(x)) {
              KeyLessTransitive(key(r[j]), key(x), key(s[0]));
              KeyLessIrreflexive(key(s[0]));
              assert false;
            }
          }
        }
      } else {
        var rest := Insert(x, s[1..], key);
        InsertSorted(x, s[1..], key);
        assert r == [s[0]] + rest;
        forall i, j | 0 <= i < j < |r|
          ensures !KeyLess(key(r[j]), key(r[i]))
        {
          if i == 0 {
            var y := rest[j - 1];
            assert y in multiset(rest);
            if y != x {
              assert y in multiset(s[1..]);
              var k :| 0 <= k < |s[1..]| && s[1..][k] == y;
              assert s[k + 1] == y;
            }
          } else {
            assert r[i] == rest[i - 1] && r[j] == rest[j - 1];
          }
        }
      }
    }
  }

  /** Inserting an element no smaller than every element of `a` passes all of `a`. */
  lemma {:induction false} InsertPast<T>(x: T, a: seq<T>, b: seq<T>, key: T -> SortKey)
    requires forall i :: 0 <= i < |a| ==> !KeyLess(key(x), key(a[i]))
    ensures Insert(x, a + b, key) == a + Insert(x, b, key)
  {
    if a != [] {
      assert (a + b)[0] == a[0];
      assert (a + b)[1..] == a[1..] + b;
      InsertPast(x, a[1..], b, key);
    } else {
      assert a + b == b;
    }
  }

  /** The negation of a predicate, as a function value. */
  function Not<T>(q: T -> bool): T -> bool {
    x => !q(x)
  }

  /** A two-valued key: false sorts before true. */
  function FlagKey(flag: bool): SortKey {
    SortKey(if flag then 1 else 0, "")
  }

  lemma FlagKeyOrder(a: bool, b: bool)
    ensures KeyLess(FlagKey(a), FlagKey(b)) <==> !a && b
  {
    assert !LexLess("", "");
  }

  /** Sorting by a two-valued key is the stable partition: every element whose
      flag is false, in input order, then every element whose flag is true, in
      input order. */
  lemma {:induction false} SortByFlagIsPartition<T>(s: seq<T>, key: T -> SortKey, q: T -> bool)
    requires forall x :: key(x) == FlagKey(q(x))
    ensures SortBy(s, key) == Filter(s, Not(q)) + Filter(s, q)
  {
    if s != [] {
      var init, x := s[..|s| - 1], s[|s| - 1];
      assert s == init + [x];
      SortByFlagIsPartition(init, key, q);
      PartitionStep(init, x, key, q);
    }
  }

  lemma PartitionStep<T>(init: seq<T>, x: T, key: T -> SortKey, q: T -> bool)
    requires forall y :: key(y) == FlagKey(q(y))
    requires SortBy(init, key) == Filter(init, Not(q)) + Filter(init, q)
    ensures SortBy(init + [x], key) == Filter(init + [x], Not(q)) + Filter(init + [x], q)
  {
    var s := init + [x];
    assert s[..|s| - 1] == init && s[|s| - 1] == x;
    var p, c := Filter(init, Not(q)), Filter(init, q);
    assert SortBy(s, key) == Insert(x, p + c, key);
    FilterAppend(init, [x], Not(q));
    FilterAppend(init, [x], q);
    FilterSingleton(x, Not(q));
    FilterSingleton(x, q);
    InsertFlag(x, p, c, key, q);
    if q(x) {
      assert Filter(s, Not(q)) == p + [] == p;
      assert Filter(s, q) == c + [x];
    } else {
      assert Filter(s, Not(q)) == p + [x];
      assert Filter(s, q) == c + [] == c;
    }
  }

  /** Where a flagged or unflagged element lands among the unflagged `p` followed
      by the flagged `c`. */
  lemma InsertFlag<T>(x: T, p: seq<T>, c: seq<T>, key: T -> SortKey, q: T -> bool)
    requires forall y :: key(y) == FlagKey(q(y))
    requires forall i :: 0 <= i < |p| ==> Not(q)(p[i])
    requires forall i :: 0 <= i < |c| ==> q(c[i])
    ensures q(x) ==> Insert(x, p + c, key) == p + (c + [x])
    ensures !q(x) ==> Insert(x, p + c, key) == p + [x] + c
  {
    if q(x) {
      forall i | 0 <= i < |p + c|
        ensures !KeyLess(key(x), key((p + c)[i]))
      {
        FlagKeyOrder(q(x), q((p + c)[i]));
      }
      InsertAtEnd(x, p + c, key);
      assert p + c + [x] == p + (c + [x]);
    } else {
      forall i | 0 <= i < |p|
        ensures !KeyLess(key(x), key(p[i]))
      {
        assert Not(q)(p[i]);
        FlagKeyOrder(q(x), q(p[i]));
      }
      if c != [] {
        FlagKeyOrder(q(x), q(c[0]));
      }
      InsertBetween(x, p, c, key);
    }
  }

  /** An element no smaller than any element of `s` goes to the end. */
  lemma InsertAtEnd<T>(x: T, s: seq<T>, key: T -> SortKey)
    requires forall i :: 0 <= i < |s| ==> !KeyLess(key(x), key(s[i]))
    ensures Insert(x, s, key) == s + [x]
  {
    InsertPast(x, s, [], key);
    assert s + [] == s;
  }

  /** An element no smaller than any element of `a` and smaller than the head of
      `b` goes between them. */
  lemma InsertBetween<T>(x: T, a: seq<T>, b: seq<T>, key: T -> SortKey)
    requires forall i :: 0 <= i < |a| ==> !KeyLess(key(x), key(a[i]))
    requires b != [] ==> KeyLess(key(x), key(b[0]))
    ensures Insert(x, a + b, key) == a + [x] + b
  {
    InsertPast(x, a, b, key);
    InsertFront(x, b, key);
    assert a + ([x] + b) == a + [x] + b;
  }

  /** An element smaller than the head of `s` goes in front. */
  lemma InsertFront<T>(x: T, s: seq<T>, key: T -> SortKey)
    requires s != [] ==> KeyLess(key(x), key(s[0]))
    ensures Insert(x, s, key) == [x] + s
  {
    if s == [] {
      assert [x] + s == [x];
    }
  }
}
