/**
 * Invariants of the database tables: every table keeps its rows in
 * ascending primary-key order, every key was issued before the next one, and
 * every child row points at an existing recipe (a foreign key).
 */
module Tables {
  import opened Wrappers
  import opened Entities
  import opened Seqs
  import LikeToggle

  /** `a` precedes `b` in key order. */
  function KeyLess<T>(key: T -> nat): (T, T) -> bool
  {
    (a: T, b: T) => key(a) < key(b)
  }

  /** Keys strictly ascend in table order and are all below `nextId`. */
  predicate Keyed<T>(s: seq<T>, key: T -> nat, nextId: nat)
  {
    Pairwise(s, KeyLess(key)) && forall i :: 0 <= i < |s| ==> key(s[i]) < nextId
  }

  /** Every row refers, through `ref`, to one of `ids`. */
  predicate RefersTo<T>(s: seq<T>, ref: T -> nat, ids: set<nat>)
  {
    forall i :: 0 <= i < |s| ==> ref(s[i]) in ids
  }

  const RecetaKey: Receta -> nat := (r: Receta) => r.id
  const IngredienteKey: Ingrediente -> nat := (i: Ingrediente) => i.id
  const ComentarioKey: Comentario -> nat := (c: Comentario) => c.id
  const IngredienteReceta: Ingrediente -> nat := (i: Ingrediente) => i.recetaId
  const LikeReceta: Like -> nat := (l: Like) => l.recetaId
  const ComentarioReceta: Comentario -> nat := (c: Comentario) => c.recetaId

  /** The primary keys of the recipes table. */
  function RecetaIds(recetas: seq<Receta>): (ids: set<nat>)
    ensures forall r :: r in recetas ==> r.id in ids
  {
    set r | r in recetas :: r.id
  }

  /** `where id = ?` on the recipes table. */
  function RecetaIdIs(id: nat): Receta -> bool
  {
    (r: Receta) => r.id == id
  }

  function RecetaIdIsNot(id: nat): Receta -> bool
  {
    (r: Receta) => r.id != id
  }

  function IngredienteIdIs(id: nat): Ingrediente -> bool
  {
    (i: Ingrediente) => i.id == id
  }

  function IngredienteIdIsNot(id: nat): Ingrediente -> bool
  {
    (i: Ingrediente) => i.id != id
  }

  function ComentarioIdIs(id: nat): Comentario -> bool
  {
    (c: Comentario) => c.id == id
  }

  function ComentarioIdIsNot(id: nat): Comentario -> bool
  {
    (c: Comentario) => c.id != id
  }

  /** Child rows that do not belong to a given recipe (what a cascade keeps). */
  function IngredienteNotOf(recetaId: nat): Ingrediente -> bool
  {
    (i: Ingrediente) => i.recetaId != recetaId
  }

  function LikeNotOf(recetaId: nat): Like -> bool
  {
    (l: Like) => l.recetaId != recetaId
  }

  function ComentarioNotOf(recetaId: nat): Comentario -> bool
  {
    (c: Comentario) => c.recetaId != recetaId
  }

  /** A `where` clause keeps the key order and the key bound. */
  lemma KeyedWhere<T(!new)>(s: seq<T>, key: T -> nat, nextId: nat, p: T -> bool)
    requires Keyed(s, key, nextId)
    ensures Keyed(Where(s, p), key, nextId)
  {
    WherePairwise(s, p, KeyLess(key));
    var w := Where(s, p);
    forall i | 0 <= i < |w| ensures key(w[i]) < nextId {
      assert w[i] in w;
    }
  }

  /** Inserting a row with the next key keeps the order and moves the bound on. */
  lemma KeyedAppend<T>(s: seq<T>, key: T -> nat, nextId: nat, x: T)
    requires Keyed(s, key, nextId) && key(x) == nextId
    ensures Keyed(s + [x], key, nextId + 1)
  {
    AppendPairwise(s, x, KeyLess(key));
  }

  /** Replacing rows by ones with the same key keeps the order and the bound. */
  lemma KeyedReplace<T>(s: seq<T>, key: T -> nat, nextId: nat, p: T -> bool, x: T)
    requires Keyed(s, key, nextId)
    requires forall i :: 0 <= i < |s| && p(s[i]) ==> key(s[i]) == key(x)
    ensures Keyed(Replace(s, p, x), key, nextId)
  {
    var r := Replace(s, p, x);
    assert forall i :: 0 <= i < |s| ==> key(r[i]) == key(s[i]);
    forall i, j | 0 <= i < j < |r| ensures KeyLess(key)(r[i], r[j]) {
      assert KeyLess(key)(s[i], s[j]);
    }
  }

  /** A `where` clause keeps every reference valid. */
  lemma RefersToWhere<T(!new)>(s: seq<T>, ref: T -> nat, ids: set<nat>, p: T -> bool)
    requires RefersTo(s, ref, ids)
    ensures RefersTo(Where(s, p), ref, ids)
  {
    var w := Where(s, p);
    forall i | 0 <= i < |w| ensures ref(w[i]) in ids {
      assert w[i] in w;
      var k :| 0 <= k < |s| && s[k] == w[i];
    }
  }

  /** Replacing a recipe by one with the same key leaves the set of keys alone. */
  lemma RecetaIdsReplace(recetas: seq<Receta>, id: nat, x: Receta)
    requires x.id == id
    ensures RecetaIds(Replace(recetas, RecetaIdIs(id), x)) == RecetaIds(recetas)
  {
    var r := Replace(recetas, RecetaIdIs(id), x);
    forall k | k in RecetaIds(r) ensures k in RecetaIds(recetas) {
      var y :| y in r && y.id == k;
      var i :| 0 <= i < |r| && r[i] == y;
      assert recetas[i] in recetas;
    }
    forall k | k in RecetaIds(recetas) ensures k in RecetaIds(r) {
      var y :| y in recetas && y.id == k;
      var i :| 0 <= i < |recetas| && recetas[i] == y;
      assert r[i] in r;
    }
  }

  /** Deleting a recipe by key removes exactly that key. */
  lemma RecetaIdsDelete(recetas: seq<Receta>, id: nat)
    ensures RecetaIds(Where(recetas, RecetaIdIsNot(id))) == RecetaIds(recetas) - {id}
  {
    var w := Where(recetas, RecetaIdIsNot(id));
    forall k | k in RecetaIds(recetas) - {id} ensures k in RecetaIds(w) {
      var y :| y in recetas && y.id == k;
      assert y in w;
    }
  }

  // --------------------------------------------------------- whole database

  /** The invariant of the four tables together. */
  predicate Consistent(recetas: seq<Receta>, ingredientes: seq<Ingrediente>, likes: seq<Like>, comentarios: seq<Comentario>, nextId: nat)
  {
    && Keyed(recetas, RecetaKey, nextId)
    && Keyed(ingredientes, IngredienteKey, nextId)
    && Keyed(comentarios, ComentarioKey, nextId)
    && LikeToggle.WellFormed(likes, nextId)
    && RefersTo(ingredientes, IngredienteReceta, RecetaIds(recetas))
    && RefersTo(likes, LikeReceta, RecetaIds(recetas))
    && RefersTo(comentarios, ComentarioReceta, RecetaIds(recetas))
  }

  /** Every ingredient belongs to an existing recipe. */
  lemma IngredienteHasReceta(recetas: seq<Receta>, ingredientes: seq<Ingrediente>, likes: seq<Like>, comentarios: seq<Comentario>, nextId: nat, i: Ingrediente)
    requires Consistent(recetas, ingredientes, likes, comentarios, nextId)
    requires i in ingredientes
    ensures i.recetaId in RecetaIds(recetas)
  {
    var k :| 0 <= k < |ingredientes| && ingredientes[k] == i;
    assert IngredienteReceta(ingredientes[k]) in RecetaIds(recetas);
  }

  /** Every comment belongs to an existing recipe. */
  lemma ComentarioHasReceta(recetas: seq<Receta>, ingredientes: seq<Ingrediente>, likes: seq<Like>, comentarios: seq<Comentario>, nextId: nat, c: Comentario)
    requires Consistent(recetas, ingredientes, likes, comentarios, nextId)
    requires c in comentarios
    ensures c.recetaId in RecetaIds(recetas)
  {
    var k :| 0 <= k < |comentarios| && comentarios[k] == c;
    assert ComentarioReceta(comentarios[k]) in RecetaIds(recetas);
  }

  /** Inserting a recipe under the next key. */
  lemma InsertRecetaConsistent(recetas: seq<Receta>, ingredientes: seq<Ingrediente>, likes: seq<Like>, comentarios: seq<Comentario>, nextId: nat, x: Receta)
    requires Consistent(recetas, ingredientes, likes, comentarios, nextId)
    requires x.id == nextId
    ensures Consistent(recetas + [x], ingredientes, likes, comentarios, nextId + 1)
  {
    KeyedAppend(recetas, RecetaKey, nextId, x);
    assert RecetaIds(recetas) <= RecetaIds(recetas + [x]);
  }

  /** Rewriting a recipe under its own key. */
  lemma ReplaceRecetaConsistent(recetas: seq<Receta>, ingredientes: seq<Ingrediente>, likes: seq<Like>, comentarios: seq<Comentario>, nextId: nat, x: Receta)
    requires Consistent(recetas, ingredientes, likes, comentarios, nextId)
    ensures Consistent(Replace(recetas, RecetaIdIs(x.id), x), ingredientes, likes, comentarios, nextId)
  {
    KeyedReplace(recetas, RecetaKey, nextId, RecetaIdIs(x.id), x);
    RecetaIdsReplace(recetas, x.id, x);
  }

  /** Cascade step: the recipe's ingredients go. */
  lemma DeleteIngredientesOfConsistent(recetas: seq<Receta>, ingredientes: seq<Ingrediente>, likes: seq<Like>, comentarios: seq<Comentario>, nextId: nat, id: nat)
    requires Consistent(recetas, ingredientes, likes, comentarios, nextId)
    ensures Consistent(recetas, Where(ingredientes, IngredienteNotOf(id)), likes, comentarios, nextId)
  {
    KeyedWhere(ingredientes, IngredienteKey, nextId, IngredienteNotOf(id));
    RefersToWhere(ingredientes, IngredienteReceta, RecetaIds(recetas), IngredienteNotOf(id));
  }

  /** Cascade step: the recipe's likes go. */
  lemma DeleteLikesOfConsistent(recetas: seq<Receta>, ingredientes: seq<Ingrediente>, likes: seq<Like>, comentarios: seq<Comentario>, nextId: nat, id: nat)
    requires Consistent(recetas, ingredientes, likes, comentarios, nextId)
    ensures Consistent(recetas, ingredientes, Where(likes, LikeNotOf(id)), comentarios, nextId)
  {
    WherePairwise(likes, LikeNotOf(id), LikeToggle.DistinctPairs);
    WherePairwise(likes, LikeNotOf(id), LikeToggle.IdsAscending);
    RefersToWhere(likes, LikeReceta, RecetaIds(recetas), LikeNotOf(id));
  }

  /** Cascade step: the recipe's comments go. */
  lemma DeleteComentariosOfConsistent(recetas: seq<Receta>, ingredientes: seq<Ingrediente>, likes: seq<Like>, comentarios: seq<Comentario>, nextId: nat, id: nat)
    requires Consistent(recetas, ingredientes, likes, comentarios, nextId)
    ensures Consistent(recetas, ingredientes, likes, Where(comentarios, ComentarioNotOf(id)), nextId)
  {
    KeyedWhere(comentarios, ComentarioKey, nextId, ComentarioNotOf(id));
    RefersToWhere(comentarios, ComentarioReceta, RecetaIds(recetas), ComentarioNotOf(id));
  }

  /** Last cascade step: a recipe no row refers to any more can go. */
  lemma DeleteChildlessRecetaConsistent(recetas: seq<Receta>, ingredientes: seq<Ingrediente>, likes: seq<Like>, comentarios: seq<Comentario>, nextId: nat, id: nat)
    requires Consistent(recetas, ingredientes, likes, comentarios, nextId)
    requires forall i :: i in ingredientes ==> i.recetaId != id
    requires forall l :: l in likes ==> l.recetaId != id
    requires forall c :: c in comentarios ==> c.recetaId != id
    ensures Consistent(Where(recetas, RecetaIdIsNot(id)), ingredientes, likes, comentarios, nextId)
    ensures RecetaIds(Where(recetas, RecetaIdIsNot(id))) == RecetaIds(recetas) - {id}
  {
    RecetaIdsDelete(recetas, id);
    KeyedWhere(recetas, RecetaKey, nextId, RecetaIdIsNot(id));
    var ids := RecetaIds(recetas) - {id};
    forall k | 0 <= k < |ingredientes| ensures IngredienteReceta(ingredientes[k]) in ids {
      assert ingredientes[k] in ingredientes;
    }
    forall k | 0 <= k < |likes| ensures LikeReceta(likes[k]) in ids {
      assert likes[k] in likes;
    }
    forall k | 0 <= k < |comentarios| ensures ComentarioReceta(comentarios[k]) in ids {
      assert comentarios[k] in comentarios;
    }
  }

  /** Inserting an ingredient of an existing recipe under the next key. */
  lemma InsertIngredienteConsistent(recetas: seq<Receta>, ingredientes: seq<Ingrediente>, likes: seq<Like>, comentarios: seq<Comentario>, nextId: nat, x: Ingrediente)
    requires Consistent(recetas, ingredientes, likes, comentarios, nextId)
    requires x.id == nextId && x.recetaId in RecetaIds(recetas)
    ensures Consistent(recetas, ingredientes + [x], likes, comentarios, nextId + 1)
  {
    KeyedAppend(ingredientes, IngredienteKey, nextId, x);
  }

  /** Rewriting an ingredient under its own key, in the same recipe. */
  lemma ReplaceIngredienteConsistent(recetas: seq<Receta>, ingredientes: seq<Ingrediente>, likes: seq<Like>, comentarios: seq<Comentario>, nextId: nat, x: Ingrediente)
    requires Consistent(recetas, ingredientes, likes, comentarios, nextId)
    requires x.recetaId in RecetaIds(recetas)
    ensures Consistent(recetas, Replace(ingredientes, IngredienteIdIs(x.id), x), likes, comentarios, nextId)
  {
    KeyedReplace(ingredientes, IngredienteKey, nextId, IngredienteIdIs(x.id), x);
  }

  /** Deleting an ingredient by key. */
  lemma DeleteIngredienteConsistent(recetas: seq<Receta>, ingredientes: seq<Ingrediente>, likes: seq<Like>, comentarios: seq<Comentario>, nextId: nat, id: nat)
    requires Consistent(recetas, ingredientes, likes, comentarios, nextId)
    ensures Consistent(recetas, Where(ingredientes, IngredienteIdIsNot(id)), likes, comentarios, nextId)
  {
    KeyedWhere(ingredientes, IngredienteKey, nextId, IngredienteIdIsNot(id));
    RefersToWhere(ingredientes, IngredienteReceta, RecetaIds(recetas), IngredienteIdIsNot(id));
  }

  /** Inserting a comment on an existing recipe under the next key. */
  lemma InsertComentarioConsistent(recetas: seq<Receta>, ingredientes: seq<Ingrediente>, likes: seq<Like>, comentarios: seq<Comentario>, nextId: nat, x: Comentario)
    requires Consistent(recetas, ingredientes, likes, comentarios, nextId)
    requires x.id == nextId && x.recetaId in RecetaIds(recetas)
    ensures Consistent(recetas, ingredientes, likes, comentarios + [x], nextId + 1)
  {
    KeyedAppend(comentarios, ComentarioKey, nextId, x);
  }

  /** Rewriting a comment under its own key, on the same recipe. */
  lemma ReplaceComentarioConsistent(recetas: seq<Receta>, ingredientes: seq<Ingrediente>, likes: seq<Like>, comentarios: seq<Comentario>, nextId: nat, x: Comentario)
    requires Consistent(recetas, ingredientes, likes, comentarios, nextId)
    requires x.recetaId in RecetaIds(recetas)
    ensures Consistent(recetas, ingredientes, likes, Replace(comentarios, ComentarioIdIs(x.id), x), nextId)
  {
    KeyedReplace(comentarios, ComentarioKey, nextId, ComentarioIdIs(x.id), x);
  }

  /** Deleting a comment by key. */
  lemma DeleteComentarioConsistent(recetas: seq<Receta>, ingredientes: seq<Ingrediente>, likes: seq<Like>, comentarios: seq<Comentario>, nextId: nat, id: nat)
    requires Consistent(recetas, ingredientes, likes, comentarios, nextId)
    ensures Consistent(recetas, ingredientes, likes, Where(comentarios, ComentarioIdIsNot(id)), nextId)
  {
    KeyedWhere(comentarios, ComentarioKey, nextId, ComentarioIdIsNot(id));
    RefersToWhere(comentarios, ComentarioReceta, RecetaIds(recetas), ComentarioIdIsNot(id));
  }

  /** A like toggle on an existing recipe. */
  lemma ToggleConsistent(recetas: seq<Receta>, ingredientes: seq<Ingrediente>, likes: seq<Like>, comentarios: seq<Comentario>, nextId: nat,
                         userId: nat, recetaId: nat, now: int)
    requires Consistent(recetas, ingredientes, likes, comentarios, nextId)
    requires recetaId in RecetaIds(recetas)
    ensures Consistent(recetas, ingredientes, LikeToggle.Toggled(likes, userId, recetaId, nextId, now), comentarios,
                       LikeToggle.NextIdAfter(likes, userId, recetaId, nextId))
  {
    LikeToggle.ToggleKeepsWellFormed(likes, userId, recetaId, nextId, now);
    var e := LikeToggle.ExistingLike(likes, userId, recetaId);
    if e.Some? {
      RefersToWhere(likes, LikeReceta, RecetaIds(recetas), LikeToggle.OtherId(e.value.id));
    }
  }
}
