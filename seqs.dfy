/**
 * Sequence operations that stand for the relational queries the backend
 * issues. A table is held in primary-key order and a `where` clause keeps
 * that order; the database itself promises no order to a query without
 * `orderBy`, so for such queries the order is this model's choice. `first()`
 * returns the earliest matching row, and an update rewrites the matching rows
 * in place.
 */
module Seqs {
  import opened Wrappers

  /** The rows of `s` that satisfy `p`, in their original order. */
  function Where<T(==,!new)>(s: seq<T>, p: T -> bool): (r: seq<T>)
    ensures |r| <= |s|
    ensures forall x :: x in r <==> x in s && p(x)
  {
    if s == [] then []
    else if p(s[0]) then [s[0]] + Where(s[1..], p)
    else Where(s[1..], p)
  }

  /** The earliest row of `s` that satisfies `p`, if any. */
  function First<T(==,!new)>(s: seq<T>, p: T -> bool): (r: Option<T>)
    ensures r.Some? <==> exists x :: x in s && p(x)
    ensures r.Some? ==> r.value in s && p(r.value)
    ensures r.Some? ==> r.value == Where(s, p)[0]
  {
    if s == [] then None
    else if p(s[0]) then Some(s[0])
    else First(s[1..], p)
  }

  /** `s` with every row that satisfies `p` replaced by `x`. */
  function Replace<T>(s: seq<T>, p: T -> bool, x: T): (r: seq<T>)
    ensures |r| == |s|
    ensures forall i :: 0 <= i < |s| && p(s[i]) ==> r[i] == x
    ensures forall i :: 0 <= i < |s| && !p(s[i]) ==> r[i] == s[i]
  {
    seq(|s|, i requires 0 <= i < |s| => if p(s[i]) then x else s[i])
  }

  /** `a` is obtained from `b` by dropping some elements, keeping the order. */
  predicate IsSubsequence<T(==,!new)>(a: seq<T>, b: seq<T>)
    decreases |b|
  {
    a == [] ||
    (b != [] && if a[0] == b[0] then IsSubsequence(a[1..], b[1..]) else IsSubsequence(a, b[1..]))
  }

  /** `R` holds of every pair of rows in table order. */
  predicate Pairwise<T>(s: seq<T>, R: (T, T) -> bool)
  {
    forall i, j :: 0 <= i < j < |s| ==> R(s[i], s[j])
  }

  /** A `where` clause never adds a row and never reorders the rows it keeps. */
  lemma {:induction false} WhereIsSubsequence<T(!new)>(s: seq<T>, p: T -> bool)
    ensures IsSubsequence(Where(s, p), s)
  {
    if s != [] {
      WhereIsSubsequence(s[1..], p);
      var w := Where(s[1..], p);
      if p(s[0]) {
        assert ([s[0]] + w)[1..] == w;
      } else if w != [] {
        assert w[0] in w;
      }
    }
  }

  /** A `where` clause that every row satisfies keeps the whole table. */
  lemma {:induction false} WhereKeepsAll<T(!new)>(s: seq<T>, p: T -> bool)
    requires forall x :: x in s ==> p(x)
    ensures Where(s, p) == s
  {
    if s != [] {
      assert s[0] in s;
      assert forall x :: x in s[1..] ==> x in s;
      WhereKeepsAll(s[1..], p);
      assert s == [s[0]] + s[1..];
    }
  }

  /** A `where` clause that no row satisfies yields the empty result. */
  lemma WhereKeepsNone<T(!new)>(s: seq<T>, p: T -> bool)
    requires forall x :: x in s ==> !p(x)
    ensures Where(s, p) == []
  {
    if Where(s, p) != [] {
      assert Where(s, p)[0] in Where(s, p);
    }
  }

  /** Two `where` clauses may be applied in either order. */
  lemma {:induction false} WhereCommutes<T(!new)>(s: seq<T>, p: T -> bool, q: T -> bool)
    ensures Where(Where(s, p), q) == Where(Where(s, q), p)
  {
    if s != [] {
      WhereCommutes(s[1..], p, q);
    }
  }

  /** Two successive `where` clauses are one clause with their conjunction. */
  lemma {:induction false} WhereConjoins<T(!new)>(s: seq<T>, p: T -> bool, q: T -> bool)
    ensures Where(Where(s, p), q) == Where(s, x => p(x) && q(x))
  {
    if s != [] {
      WhereConjoins(s[1..], p, q);
    }
  }

  /** Two predicates that agree on every row select the same rows. */
  lemma {:induction false} WhereAgrees<T(!new)>(s: seq<T>, p: T -> bool, q: T -> bool)
    requires forall x :: x in s ==> p(x) == q(x)
    ensures Where(s, p) == Where(s, q)
  {
    if s != [] {
      assert s[0] in s;
      assert forall x :: x in s[1..] ==> x in s;
      WhereAgrees(s[1..], p, q);
    }
  }

  /** Every sequence is a subsequence of itself. */
  lemma {:induction false} SubsequenceReflexive<T(!new)>(s: seq<T>)
    ensures IsSubsequence(s, s)
  {
    if s != [] {
      SubsequenceReflexive(s[1..]);
    }
  }

  /** A relation that holds between all rows in table order still holds after a `where`. */
  lemma {:induction false} WherePairwise<T(!new)>(s: seq<T>, p: T -> bool, R: (T, T) -> bool)
    requires Pairwise(s, R)
    ensures Pairwise(Where(s, p), R)
  {
    if s != [] {
      var t := s[1..];
      assert Pairwise(t, R) by {
        forall i, j | 0 <= i < j < |t| ensures R(t[i], t[j]) {
          assert t[i] == s[i + 1] && t[j] == s[j + 1];
        }
      }
      WherePairwise(t, p, R);
      if p(s[0]) {
        var w := Where(t, p);
        var r := [s[0]] + w;
        forall i, j | 0 <= i < j < |r| ensures R(r[i], r[j]) {
          if i == 0 {
            assert r[j] == w[j - 1] && w[j - 1] in w;
            var k :| 0 <= k < |t| && t[k] == w[j - 1];
            assert s[k + 1] == t[k];
          } else {
            assert r[i] == w[i - 1] && r[j] == w[j - 1];
          }
        }
      }
    }
  }

  /** Appending a row keeps a pairwise relation if it relates every earlier row to the new one. */
  lemma AppendPairwise<T>(s: seq<T>, x: T, R: (T, T) -> bool)
    requires Pairwise(s, R)
    requires forall i :: 0 <= i < |s| ==> R(s[i], x)
    ensures Pairwise(s + [x], R)
  {
    var r := s + [x];
    forall i, j | 0 <= i < j < |r| ensures R(r[i], r[j]) {
      if j == |s| {
        assert r[j] == x && r[i] == s[i];
      } else {
        assert r[i] == s[i] && r[j] == s[j];
      }
    }
  }
}
