/**
 * The like toggle as a function of the likes table: the first row of the
 * pair (user, recipe) is looked up; if there is one it is deleted by its id,
 * otherwise a row for the pair is appended under a fresh id.
 */
module LikeToggle {
  import opened Wrappers
  import opened Entities
  import opened Seqs
  import opened RecetaModel

  /** What the toggle endpoint answers. */
  datatype ToggleResponse = ToggleResponse(liked: bool, likesCount: nat, status: nat)

  function PairFilter(userId: nat, recetaId: nat): Like -> bool
  {
    (l: Like) => l.userId == userId && l.recetaId == recetaId
  }

  function OtherId(id: nat): Like -> bool
  {
    (l: Like) => l.id != id
  }

  const DistinctPairs: (Like, Like) -> bool := (a: Like, b: Like) => a.userId != b.userId || a.recetaId != b.recetaId

  const IdsAscending: (Like, Like) -> bool := (a: Like, b: Like) => a.id < b.id

  /** No pair (user, recipe) occurs in two rows. */
  predicate UniquePairs(likes: seq<Like>)
  {
    Pairwise(likes, DistinctPairs)
  }

  /** The table's invariant: unique pairs, ids ascending in table order and all below the next id. */
  predicate WellFormed(likes: seq<Like>, nextId: nat)
  {
    UniquePairs(likes) && Pairwise(likes, IdsAscending) && forall l :: l in likes ==> l.id < nextId
  }

  /** The existing row of the pair, as `first()` returns it. */
  function ExistingLike(likes: seq<Like>, userId: nat, recetaId: nat): (o: Option<Like>)
    ensures o.Some? <==> HasLike(likes, userId, recetaId)
    ensures o.Some? ==> o.value in likes && o.value.userId == userId && o.value.recetaId == recetaId
  {
    First(likes, PairFilter(userId, recetaId))
  }

  /** The likes table after a toggle by `userId` on `recetaId`. */
  function Toggled(likes: seq<Like>, userId: nat, recetaId: nat, newId: nat, now: int): seq<Like>
  {
    match ExistingLike(likes, userId, recetaId)
    case Some(e) => Where(likes, OtherId(e.id))
    case None => likes + [Like(newId, userId, recetaId, now)]
  }

  /** The next free id after a toggle: one more when a row was created. */
  function NextIdAfter(likes: seq<Like>, userId: nat, recetaId: nat, nextId: nat): nat
  {
    if HasLike(likes, userId, recetaId) then nextId else nextId + 1
  }

  // ------------------------------------------------------------------ helpers

  /** Two different rows of a table with ascending ids have different ids. */
  lemma IdsDistinct(likes: seq<Like>, a: Like, b: Like)
    requires Pairwise(likes, IdsAscending)
    requires a in likes && b in likes && a != b
    ensures a.id != b.id
  {
    var i :| 0 <= i < |likes| && likes[i] == a;
    var j :| 0 <= j < |likes| && likes[j] == b;
    if i < j {
      assert IdsAscending(likes[i], likes[j]);
    } else {
      assert IdsAscending(likes[j], likes[i]);
    }
  }

  /** Two different rows of a table with unique pairs are rows of different pairs. */
  lemma PairsDistinct(likes: seq<Like>, a: Like, b: Like)
    requires UniquePairs(likes)
    requires a in likes && b in likes && a != b
    ensures a.userId != b.userId || a.recetaId != b.recetaId
  {
    var i :| 0 <= i < |likes| && likes[i] == a;
    var j :| 0 <= j < |likes| && likes[j] == b;
    if i < j {
      assert DistinctPairs(likes[i], likes[j]);
    } else {
      assert DistinctPairs(likes[j], likes[i]);
    }
  }

  /** A `where` over a table with one appended row. */
  lemma {:induction false} WhereAppend<T(!new)>(s: seq<T>, x: T, p: T -> bool)
    ensures Where(s + [x], p) == Where(s, p) + (if p(x) then [x] else [])
  {
    if s != [] {
      assert (s + [x])[0] == s[0] && (s + [x])[1..] == s[1..] + [x];
      WhereAppend(s[1..], x, p);
    }
  }

  /** Deleting by the id of a row whose id is unique removes exactly that row. */
  lemma {:induction false} DeleteByUniqueId(s: seq<Like>, e: Like)
    requires Pairwise(s, IdsAscending) && e in s
    ensures |Where(s, OtherId(e.id))| == |s| - 1
    ensures forall l :: l in Where(s, OtherId(e.id)) <==> l in s && l != e
  {
    forall l | l in s && l != e ensures l.id != e.id {
      IdsDistinct(s, l, e);
    }
    var t := s[1..];
    assert Pairwise(t, IdsAscending) by {
      forall i, j | 0 <= i < j < |t| ensures IdsAscending(t[i], t[j]) {
        assert t[i] == s[i + 1] && t[j] == s[j + 1];
      }
    }
    if s[0] == e {
      forall l | l in t ensures OtherId(e.id)(l) {
        var k :| 0 <= k < |t| && t[k] == l;
        assert IdsAscending(s[0], s[k + 1]);
      }
      WhereKeepsAll(t, OtherId(e.id));
    } else {
      DeleteByUniqueId(t, e);
    }
  }

  /** Removing a row that does not belong to recipe `r` leaves `r`'s likes as they were. */
  lemma DeleteOtherRecipe(likes: seq<Like>, e: Like, r: nat)
    requires Pairwise(likes, IdsAscending) && e in likes && e.recetaId != r
    ensures LikesOf(Where(likes, OtherId(e.id)), r) == LikesOf(likes, r)
  {
    var rows := LikesOf(likes, r);
    WhereCommutes(likes, OtherId(e.id), (l: Like) => l.recetaId == r);
    forall l | l in rows ensures OtherId(e.id)(l) {
      IdsDistinct(likes, l, e);
    }
    WhereKeepsAll(rows, OtherId(e.id));
  }

  /** Removing a row of recipe `r` takes one from `r`'s like count. */
  lemma DeleteSameRecipe(likes: seq<Like>, e: Like, r: nat)
    requires Pairwise(likes, IdsAscending) && e in likes && e.recetaId == r
    ensures LikesCount(Where(likes, OtherId(e.id)), r) == LikesCount(likes, r) - 1
  {
    var rowsOf := (l: Like) => l.recetaId == r;
    WhereCommutes(likes, OtherId(e.id), rowsOf);
    WherePairwise(likes, rowsOf, IdsAscending);
    DeleteByUniqueId(Where(likes, rowsOf), e);
  }

  // ------------------------------------------------------------ properties

  /** A toggle flips whether the pair is liked. */
  lemma ToggleFlips(likes: seq<Like>, userId: nat, recetaId: nat, newId: nat, now: int)
    requires WellFormed(likes, newId)
    ensures HasLike(Toggled(likes, userId, recetaId, newId, now), userId, recetaId) == !HasLike(likes, userId, recetaId)
  {
    var t := Toggled(likes, userId, recetaId, newId, now);
    if HasLike(likes, userId, recetaId) {
      var e := ExistingLike(likes, userId, recetaId).value;
      DeleteByUniqueId(likes, e);
      forall l | l in t ensures !(l.userId == userId && l.recetaId == recetaId) {
        PairsDistinct(likes, l, e);
      }
    } else {
      assert t[|t| - 1] in t;
    }
  }

  /** A toggle keeps every row of every other pair and adds none. */
  lemma ToggleKeepsOtherPairs(likes: seq<Like>, userId: nat, recetaId: nat, newId: nat, now: int)
    requires WellFormed(likes, newId)
    ensures forall l: Like :: !(l.userId == userId && l.recetaId == recetaId) ==>
      (l in Toggled(likes, userId, recetaId, newId, now) <==> l in likes)
  {
    if HasLike(likes, userId, recetaId) {
      DeleteByUniqueId(likes, ExistingLike(likes, userId, recetaId).value);
    }
  }

  /** The like count of the target recipe moves by one; every other count stays. */
  lemma ToggleCounts(likes: seq<Like>, userId: nat, recetaId: nat, newId: nat, now: int, r: nat)
    requires WellFormed(likes, newId)
    ensures LikesCount(Toggled(likes, userId, recetaId, newId, now), r) ==
      if r != recetaId then LikesCount(likes, r)
      else if HasLike(likes, userId, recetaId) then LikesCount(likes, r) - 1
      else LikesCount(likes, r) + 1
  {
    if HasLike(likes, userId, recetaId) {
      var e := ExistingLike(likes, userId, recetaId).value;
      if r == recetaId {
        DeleteSameRecipe(likes, e, r);
      } else {
        DeleteOtherRecipe(likes, e, r);
      }
    } else {
      WhereAppend(likes, Like(newId, userId, recetaId, now), (l: Like) => l.recetaId == r);
    }
  }

  /** A toggle keeps the table well formed, given the next id it advances to. */
  lemma ToggleKeepsWellFormed(likes: seq<Like>, userId: nat, recetaId: nat, newId: nat, now: int)
    requires WellFormed(likes, newId)
    ensures WellFormed(Toggled(likes, userId, recetaId, newId, now), NextIdAfter(likes, userId, recetaId, newId))
  {
    if HasLike(likes, userId, recetaId) {
      var e := ExistingLike(likes, userId, recetaId).value;
      WherePairwise(likes, OtherId(e.id), DistinctPairs);
      WherePairwise(likes, OtherId(e.id), IdsAscending);
    } else {
      var x := Like(newId, userId, recetaId, now);
      forall i | 0 <= i < |likes| ensures DistinctPairs(likes[i], x) && IdsAscending(likes[i], x) {
        assert likes[i] in likes;
      }
      AppendPairwise(likes, x, DistinctPairs);
      AppendPairwise(likes, x, IdsAscending);
    }
  }

  /**
   * Two toggles in a row by the same user on the same recipe restore every
   * pair's liked state and every recipe's count; starting from "not liked"
   * they restore the table itself.
   */
  lemma ToggleTwiceRestores(likes: seq<Like>, userId: nat, recetaId: nat, newId: nat, now1: int, now2: int)
    requires WellFormed(likes, newId)
    ensures
      var t1 := Toggled(likes, userId, recetaId, newId, now1);
      var t2 := Toggled(t1, userId, recetaId, NextIdAfter(likes, userId, recetaId, newId), now2);
      && (forall u, r :: HasLike(t2, u, r) == HasLike(likes, u, r))
      && (forall r :: LikesCount(t2, r) == LikesCount(likes, r))
      && (!HasLike(likes, userId, recetaId) ==> t2 == likes)
  {
    var t1 := Toggled(likes, userId, recetaId, newId, now1);
    var n1 := NextIdAfter(likes, userId, recetaId, newId);
    var t2 := Toggled(t1, userId, recetaId, n1, now2);
    ToggleKeepsWellFormed(likes, userId, recetaId, newId, now1);
    ToggleFlips(likes, userId, recetaId, newId, now1);
    ToggleFlips(t1, userId, recetaId, n1, now2);
    ToggleKeepsOtherPairs(likes, userId, recetaId, newId, now1);
    ToggleKeepsOtherPairs(t1, userId, recetaId, n1, now2);
    forall u, r ensures HasLike(t2, u, r) == HasLike(likes, u, r) {
      if u != userId || r != recetaId {
        if HasLike(likes, u, r) {
          var l :| l in likes && l.userId == u && l.recetaId == r;
          assert l in t2;
        }
        if HasLike(t2, u, r) {
          var l :| l in t2 && l.userId == u && l.recetaId == r;
          assert l in likes;
        }
      }
    }
    forall r ensures LikesCount(t2, r) == LikesCount(likes, r) {
      ToggleCounts(likes, userId, recetaId, newId, now1, r);
      ToggleCounts(t1, userId, recetaId, n1, now2, r);
    }
    if !HasLike(likes, userId, recetaId) {
      var x := Like(newId, userId, recetaId, now1);
      assert t1 == likes + [x];
      var e := ExistingLike(t1, userId, recetaId).value;
      assert e !in likes;
      assert e == x;
      WhereAppend(likes, x, OtherId(newId));
      WhereKeepsAll(likes, OtherId(newId));
    }
  }
}
