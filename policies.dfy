/**
 * The recipe policy. Its source file is not part of this model; the
 * owner-or-admin rule below is the behaviour the feature tests expect of
 * `authorize('update'|'delete', $receta)`, and it is assumed.
 */
module RecetaPolicy {
  import opened Entities

  /** An admin, or the recipe's owner. */
  predicate Update(u: User, r: Receta)
  {
    u.isAdmin || u.id == r.userId
  }

  /** An admin, or the recipe's owner. */
  predicate Delete(u: User, r: Receta)
  {
    u.isAdmin || u.id == r.userId
  }

  /** Changing and deleting a recipe are allowed to its owner or an admin and to nobody else, alike. */
  lemma OnlyOwnerOrAdmin(u: User, r: Receta)
    ensures Update(u, r) <==> u.isAdmin || u.id == r.userId
    ensures Delete(u, r) <==> Update(u, r)
  {
  }
}

/** Who may do what with a comment. */
module ComentarioPolicy {
  import opened Entities

  predicate ViewAny(u: User) { false }

  predicate View(u: User, c: Comentario) { false }

  /** Any authenticated user may comment. */
  predicate Create(u: User) { true }

  /** An admin, or the comment's author. */
  predicate Update(u: User, c: Comentario)
  {
    if u.isAdmin then true else u.id == c.userId
  }

  /** An admin, or the comment's author. */
  predicate Delete(u: User, c: Comentario)
  {
    if u.isAdmin then true else u.id == c.userId
  }

  predicate Restore(u: User, c: Comentario) { false }

  predicate ForceDelete(u: User, c: Comentario) { false }

  /** Update and delete are granted to exactly the admins and the author. */
  lemma OnlyAuthorOrAdmin(u: User, c: Comentario)
    ensures Update(u, c) <==> u.isAdmin || u.id == c.userId
    ensures Delete(u, c) <==> u.isAdmin || u.id == c.userId
  {
  }

  /** Whoever may edit a comment may delete it, and conversely. */
  lemma UpdateAgreesWithDelete(u: User, c: Comentario)
    ensures Update(u, c) == Delete(u, c)
  {
  }

  /** Creating is always granted; listing, viewing, restoring and force-deleting never are. */
  lemma FixedAbilities(u: User, c: Comentario)
    ensures Create(u)
    ensures !ViewAny(u) && !View(u, c) && !Restore(u, c) && !ForceDelete(u, c)
  {
  }
}

/**
 * Who may do what with an ingredient. The owner is the owner of the parent
 * recipe, which the caller resolves and passes as `receta`.
 */
module IngredientePolicy {
  import opened Entities
  import RecetaPolicy

  predicate ViewAny(u: User) { false }

  predicate View(u: User, i: Ingrediente) { false }

  /** Granted here; the controller checks the parent recipe instead. */
  predicate Create(u: User) { true }

  /** An admin, or the owner of the parent recipe. */
  predicate Update(u: User, i: Ingrediente, receta: Receta)
    requires receta.id == i.recetaId
  {
    if u.isAdmin then true else u.id == receta.userId
  }

  /** An admin, or the owner of the parent recipe. */
  predicate Delete(u: User, i: Ingrediente, receta: Receta)
    requires receta.id == i.recetaId
  {
    if u.isAdmin then true else u.id == receta.userId
  }

  predicate Restore(u: User, i: Ingrediente) { false }

  predicate ForceDelete(u: User, i: Ingrediente) { false }

  /** Update and delete are granted to exactly the admins and the owner of the parent recipe. */
  lemma OnlyOwnerOrAdmin(u: User, i: Ingrediente, receta: Receta)
    requires receta.id == i.recetaId
    ensures Update(u, i, receta) <==> u.isAdmin || u.id == receta.userId
    ensures Delete(u, i, receta) <==> u.isAdmin || u.id == receta.userId
  {
  }

  /** The decision reads nothing of the ingredient itself: two ingredients of one recipe are treated alike. */
  lemma IgnoresIngredientFields(u: User, i1: Ingrediente, i2: Ingrediente, receta: Receta)
    requires receta.id == i1.recetaId && receta.id == i2.recetaId
    ensures Update(u, i1, receta) == Update(u, i2, receta)
    ensures Delete(u, i1, receta) == Delete(u, i2, receta)
  {
  }

  /** Editing an ingredient is granted exactly when editing its recipe is. */
  lemma AgreesWithRecetaPolicy(u: User, i: Ingrediente, receta: Receta)
    requires receta.id == i.recetaId
    ensures Update(u, i, receta) == RecetaPolicy.Update(u, receta)
    ensures Delete(u, i, receta) == RecetaPolicy.Delete(u, receta)
  {
  }

  /** Creating is always granted; listing, viewing, restoring and force-deleting never are. */
  lemma FixedAbilities(u: User, i: Ingrediente)
    ensures Create(u)
    ensures !ViewAny(u) && !View(u, i) && !Restore(u, i) && !ForceDelete(u, i)
  {
  }
}
