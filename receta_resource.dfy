/**
 * The recipe's JSON projection: stored columns copied, the image as its
 * full URL, the live like count, the viewer's like state only when there is
 * a viewer, and the nested collections only when the caller loaded them.
 */
module RecetaResource {
  import opened Wrappers
  import opened Entities
  import opened Text
  import opened RecetaModel
  import LikeToggle

  /** Which relations the caller loaded or counted before serializing. */
  datatype Loaded = Loaded(ingredientes: bool, comentarios: bool, comentariosCounted: bool)

  /** A field absent from the payload is `None`. */
  datatype RecetaJson = RecetaJson(
    id: nat,
    titulo: string,
    descripcion: string,
    instrucciones: string,
    publicada: bool,
    userId: nat,
    imagenUrl: Option<string>,
    createdAt: int,
    ingredientes: Option<seq<Ingrediente>>,
    likesCount: nat,
    likedByUser: Option<bool>,
    comentarios: Option<seq<Comentario>>,
    comentariosCount: Option<nat>)

  /** `toArray($request)`. */
  function ToArray(
    r: Receta, ingredientes: seq<Ingrediente>, likes: seq<Like>, comentarios: seq<Comentario>,
    viewer: Option<User>, loaded: Loaded): (j: RecetaJson)
    ensures j.id == r.id && j.titulo == r.titulo && j.descripcion == r.descripcion
    ensures j.instrucciones == r.instrucciones && j.publicada == r.publicada
    ensures j.userId == r.userId && j.createdAt == r.createdAt
    ensures j.imagenUrl.None? <==> Falsy(r.imagenUrl)
    ensures j.imagenUrl == ImagenUrlCompleta(r.imagenUrl)
    ensures j.likesCount == |LikesOf(likes, r.id)|
    ensures j.likedByUser.Some? <==> viewer.Some?
    ensures j.likedByUser.Some? ==> (j.likedByUser.value <==> exists l :: l in likes && l.recetaId == r.id && l.userId == viewer.value.id)
    ensures j.ingredientes.Some? <==> loaded.ingredientes
    ensures j.ingredientes.Some? ==> forall i :: i in j.ingredientes.value <==> i in ingredientes && i.recetaId == r.id
    ensures j.comentarios.Some? <==> loaded.comentarios
    ensures j.comentarios.Some? ==> forall c :: c in j.comentarios.value <==> c in comentarios && c.recetaId == r.id
    ensures j.comentariosCount.Some? <==> loaded.comentariosCounted
    ensures j.comentariosCount.Some? ==> j.comentariosCount.value == |ComentariosOf(comentarios, r.id)|
  {
    RecetaJson(
      r.id, r.titulo, r.descripcion, r.instrucciones, r.publicada, r.userId,
      ImagenUrlCompleta(r.imagenUrl),
      r.createdAt,
      if loaded.ingredientes then Some(IngredientesOf(ingredientes, r.id)) else None,
      LikesCount(likes, r.id),
      if viewer.Some? then Some(IsLikedBy(likes, r.id, viewer)) else None,
      if loaded.comentarios then Some(ComentariosOf(comentarios, r.id)) else None,
      if loaded.comentariosCounted then Some(|ComentariosOf(comentarios, r.id)|) else None)
  }

  /**
   * After the viewer toggles a like on a recipe, the recipe's payload for
   * that viewer shows the flipped like state and a count moved by one.
   */
  lemma PayloadFollowsToggle(
    r: Receta, ingredientes: seq<Ingrediente>, likes: seq<Like>, comentarios: seq<Comentario>,
    u: User, nextId: nat, now: int, loaded: Loaded)
    requires LikeToggle.WellFormed(likes, nextId)
    ensures
      var before := ToArray(r, ingredientes, likes, comentarios, Some(u), loaded);
      var after := ToArray(r, ingredientes, LikeToggle.Toggled(likes, u.id, r.id, nextId, now), comentarios, Some(u), loaded);
      && after.likedByUser == Some(!before.likedByUser.value)
      && after.likesCount == if before.likedByUser.value then before.likesCount - 1 else before.likesCount + 1
  {
    LikeToggle.ToggleFlips(likes, u.id, r.id, nextId, now);
    LikeToggle.ToggleCounts(likes, u.id, r.id, nextId, now, r.id);
  }
}
