/**
 * `ORDER BY key ASC|DESC` over a sequence of rows. The database leaves the
 * order of ties open, so an ordering is specified only by what every
 * admissible answer shares: it is a permutation of its input and the keys
 * are monotone in the requested direction.
 */
module Sorting {

  /** A sort key: a number (a timestamp or a count) or a text column. */
  datatype Key = Num(n: int) | Str(s: string)

  datatype Direction = Asc | Desc

  /** Lexicographic order on code points. */
  predicate LexLe(a: string, b: string)
  {
    a == [] || (b != [] && (a[0] < b[0] || (a[0] == b[0] && LexLe(a[1..], b[1..]))))
  }

  /** Total preorder on keys; numbers sort before texts. */
  predicate KeyLe(a: Key, b: Key)
  {
    match (a, b)
    case (Num(x), Num(y)) => x <= y
    case (Str(x), Str(y)) => LexLe(x, y)
    case (Num(_), Str(_)) => true
    case (Str(_), Num(_)) => false
  }

  /** `a` may precede `b` in an ordering in direction `d`. */
  predicate InOrder(a: Key, b: Key, d: Direction)
  {
    if d == Asc then KeyLe(a, b) else KeyLe(b, a)
  }

  /** Keys along `s` are monotone in direction `d`. */
  predicate SortedBy<T>(s: seq<T>, key: T -> Key, d: Direction)
  {
    forall i, j :: 0 <= i < j < |s| ==> InOrder(key(s[i]), key(s[j]), d)
  }

  lemma {:induction false} LexLeTotal(a: string, b: string)
    ensures LexLe(a, b) || LexLe(b, a)
  {
    if a != [] && b != [] && a[0] == b[0] {
      LexLeTotal(a[1..], b[1..]);
    }
  }

  lemma {:induction false} LexLeTransitive(a: string, b: string, c: string)
    requires LexLe(a, b) && LexLe(b, c)
    ensures LexLe(a, c)
  {
    if a != [] && b != [] && c != [] && a[0] == b[0] == c[0] {
      LexLeTransitive(a[1..], b[1..], c[1..]);
    }
  }

  lemma InOrderTotal(a: Key, b: Key, d: Direction)
    ensures InOrder(a, b, d) || InOrder(b, a, d)
  {
    if a.Str? && b.Str? {
      LexLeTotal(a.s, b.s);
    }
  }

  lemma InOrderTransitive(a: Key, b: Key, c: Key, d: Direction)
    requires InOrder(a, b, d) && InOrder(b, c, d)
    ensures InOrder(a, c, d)
  {
    if a.Str? && b.Str? && c.Str? {
      if d == Asc {
        LexLeTransitive(a.s, b.s, c.s);
      } else {
        LexLeTransitive(c.s, b.s, a.s);
      }
    }
  }

  /** Putting `x` in front of a sorted `s` whose head it may precede keeps it sorted. */
  lemma InsertFront<T>(x: T, s: seq<T>, key: T -> Key, d: Direction)
    requires SortedBy(s, key, d)
    requires s != [] ==> InOrder(key(x), key(s[0]), d)
    ensures SortedBy([x] + s, key, d)
  {
    var r := [x] + s;
    forall i, j | 0 <= i < j < |r| ensures InOrder(key(r[i]), key(r[j]), d) {
      if i == 0 {
        if j > 1 {
          InOrderTransitive(key(x), key(s[0]), key(s[j - 1]), d);
        }
      } else {
        assert r[i] == s[i - 1] && r[j] == s[j - 1];
      }
    }
  }

  /**
   * Putting the head `h` of a sorted sequence in front of `t`, where `t` is the
   * rest of that sequence plus a row `x` that `h` may precede, keeps it sorted.
   */
  lemma InsertBehind<T(!new)>(h: T, x: T, rest: seq<T>, t: seq<T>, key: T -> Key, d: Direction)
    requires SortedBy([h] + rest, key, d) && SortedBy(t, key, d)
    requires InOrder(key(h), key(x), d)
    requires multiset(t) == multiset(rest) + multiset{x}
    ensures SortedBy([h] + t, key, d)
  {
    var r := [h] + t;
    forall i, j | 0 <= i < j < |r| ensures InOrder(key(r[i]), key(r[j]), d) {
      if i == 0 {
        var y := t[j - 1];
        assert y in multiset(t);
        if y != x {
          assert y in multiset(rest);
          var k :| 0 <= k < |rest| && rest[k] == y;
          var hr := [h] + rest;
          assert hr[0] == h && hr[k + 1] == y;
          assert InOrder(key(hr[0]), key(hr[k + 1]), d);
        }
        assert r[0] == h && r[j] == y;
      } else {
        assert r[i] == t[i - 1] && r[j] == t[j - 1];
      }
    }
  }

  /** Inserts `x` into the sorted `s` at a place that keeps it sorted. */
  function Insert<T(!new)>(x: T, s: seq<T>, key: T -> Key, d: Direction): (r: seq<T>)
    requires SortedBy(s, key, d)
    ensures SortedBy(r, key, d)
    ensures multiset(r) == multiset(s) + multiset{x}
  {
    if s == [] then
      [x]
    else if InOrder(key(x), key(s[0]), d) then
      InsertFront(x, s, key, d);
      [x] + s
    else
      assert s == [s[0]] + s[1..];
      InOrderTotal(key(x), key(s[0]), d);
      var t := Insert(x, s[1..], key, d);
      InsertBehind(s[0], x, s[1..], t, key, d);
      [s[0]] + t
  }

  /** `ORDER BY key d`: a permutation of `s` whose keys are monotone in direction `d`. */
  function Sort<T(!new)>(s: seq<T>, key: T -> Key, d: Direction): (r: seq<T>)
    ensures SortedBy(r, key, d)
    ensures multiset(r) == multiset(s)
  {
    if s == [] then
      []
    else
      assert s == [s[0]] + s[1..];
      Insert(s[0], Sort(s[1..], key, d), key, d)
  }
}
