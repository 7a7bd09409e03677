/**
 * The controllers over the database. `Store` holds the four tables, the
 * files on the public disk and the next auto-increment key (one counter for
 * all tables). Each endpoint method returns what the handler answers and
 * changes the tables as its queries do; every refusal leaves them as they were.
 */
module Api {
  import opened Wrappers
  import opened Entities
  import opened Seqs
  import opened RecetaModel
  import opened RecetaService
  import opened Tables
  import opened Queries
  import RecetaPolicy
  import ComentarioPolicy
  import IngredientePolicy
  import LikeToggle
  import RecetaResource

  /** One page of the listing: the serialized rows before slicing, and the page size. */
  datatype Page = Page(data: seq<RecetaResource.RecetaJson>, perPage: int)

  /** The row of the likes listing. */
  datatype LikeRow = LikeRow(id: nat, userId: nat, createdAt: int)

  datatype LikesListing = LikesListing(likes: seq<LikeRow>, likesCount: nat)

  class Store {
    var recetas: seq<Receta>
    var ingredientes: seq<Ingrediente>
    var likes: seq<Like>
    var comentarios: seq<Comentario>
    var files: set<string>
    var nextId: nat

    /** Keys ascend and were issued, like pairs are unique, child rows point at recipes. */
    ghost predicate Valid()
      reads this
    {
      Consistent(recetas, ingredientes, likes, comentarios, nextId)
    }

    /** An empty database; auto-increment keys start at 1. */
    constructor ()
      ensures Valid()
      ensures recetas == [] && ingredientes == [] && likes == [] && comentarios == []
      ensures files == {} && nextId == 1
    {
      recetas, ingredientes, likes, comentarios := [], [], [], [];
      files := {};
      nextId := 1;
    }

    // ------------------------------------------------------------------ likes

    /** `toggleLike`: delete the viewer's like of the recipe, or create one. */
    method ToggleLike(actor: User, recetaId: nat, now: int) returns (r: Result<LikeToggle.ToggleResponse, Error>)
      requires Valid()
      modifies this
      ensures Valid()
      ensures r.Err? <==> recetaId !in RecetaIds(old(recetas))
      ensures r.Err? ==> r.error == NotFound && unchanged(this)
      ensures r.Ok? ==> likes == LikeToggle.Toggled(old(likes), actor.id, recetaId, old(nextId), now)
      ensures r.Ok? ==> nextId == LikeToggle.NextIdAfter(old(likes), actor.id, recetaId, old(nextId))
      ensures r.Ok? ==> r.value.liked == !HasLike(old(likes), actor.id, recetaId)
      ensures r.Ok? ==> r.value.liked == HasLike(likes, actor.id, recetaId)
      ensures r.Ok? ==> r.value.likesCount == LikesCount(likes, recetaId)
      ensures r.Ok? ==> r.value.likesCount == if r.value.liked then LikesCount(old(likes), recetaId) + 1 else LikesCount(old(likes), recetaId) - 1
      ensures r.Ok? ==> r.value.status == if r.value.liked then 201 else 200
      ensures recetas == old(recetas) && ingredientes == old(ingredientes) && comentarios == old(comentarios) && files == old(files)
    {
      if recetaId !in RecetaIds(recetas) {
        return Err(NotFound);
      }
      LikeToggle.ToggleFlips(likes, actor.id, recetaId, nextId, now);
      LikeToggle.ToggleCounts(likes, actor.id, recetaId, nextId, now, recetaId);
      ToggleConsistent(recetas, ingredientes, likes, comentarios, nextId, actor.id, recetaId, now);
      ghost var toggled := LikeToggle.Toggled(likes, actor.id, recetaId, nextId, now);
      var existing := LikeToggle.ExistingLike(likes, actor.id, recetaId);
      if existing.Some? {
        likes := Where(likes, LikeToggle.OtherId(existing.value.id));
        assert likes == toggled;
        r := Ok(LikeToggle.ToggleResponse(false, LikesCount(likes, recetaId), 200));
      } else {
        likes := likes + [Like(nextId, actor.id, recetaId, now)];
        assert likes == toggled;
        nextId := nextId + 1;
        r := Ok(LikeToggle.ToggleResponse(true, LikesCount(likes, recetaId), 201));
      }
    }

    /** `count`: the number of likes of the recipe. */
    method LikesCountOf(recetaId: nat) returns (r: Result<nat, Error>)
      ensures r.Err? <==> recetaId !in RecetaIds(recetas)
      ensures r.Err? ==> r.error == NotFound
      ensures r.Ok? ==> r.value == LikesCount(likes, recetaId)
      ensures r.Ok? ==> (r.value == 0 <==> forall l :: l in likes ==> l.recetaId != recetaId)
    {
      if recetaId !in RecetaIds(recetas) {
        return Err(NotFound);
      }
      return Ok(LikesCount(likes, recetaId));
    }

    /** `index` of likes: the recipe's likes and how many there are; the rows come in key order, which the query does not ask for. */
    method LikesIndex(recetaId: nat) returns (r: Result<LikesListing, Error>)
      ensures r.Err? <==> recetaId !in RecetaIds(recetas)
      ensures r.Err? ==> r.error == NotFound
      ensures r.Ok? ==> |r.value.likes| == r.value.likesCount == LikesCount(likes, recetaId)
      ensures r.Ok? ==> forall i :: 0 <= i < |r.value.likes| ==>
        var l := LikesOf(likes, recetaId)[i];
        l in likes && l.recetaId == recetaId && r.value.likes[i] == LikeRow(l.id, l.userId, l.createdAt)
    {
      if recetaId !in RecetaIds(recetas) {
        return Err(NotFound);
      }
      var rows := LikesOf(likes, recetaId);
      assert forall i :: 0 <= i < |rows| ==> rows[i] in rows;
      var listing := seq(|rows|, i requires 0 <= i < |rows| => LikeRow(rows[i].id, rows[i].userId, rows[i].createdAt));
      return Ok(LikesListing(listing, |rows|));
    }

    // ---------------------------------------------------------------- recipes

    /** `index`: the filtered, ordered listing, serialized, with the page size. */
    method RecetasIndex(viewer: Option<User>, f: Filters, sort: Option<string>, perPage: Option<int>) returns (r: Result<Page, Error>)
      ensures r.Err? <==> f.minLikes.Some?
      ensures r.Err? ==> r.error == UndefinedScope
      ensures r.Ok? ==> r.value.perPage == PerPage(perPage) && r.value.perPage <= 50
      ensures r.Ok? ==>
        var rows := Listing(recetas, f, sort, ingredientes, likes).value;
        && |r.value.data| == |rows|
        && forall i :: 0 <= i < |rows| ==>
             r.value.data[i] == RecetaResource.ToArray(rows[i], ingredientes, likes, comentarios, viewer, RecetaResource.Loaded(false, false, false))
    {
      var listing := Listing(recetas, f, sort, ingredientes, likes);
      if listing.Err? {
        return Err(listing.error);
      }
      var rows, ings, ls, cs := listing.value, ingredientes, likes, comentarios;
      var data := seq(|rows|, i requires 0 <= i < |rows| =>
        RecetaResource.ToArray(rows[i], ings, ls, cs, viewer, RecetaResource.Loaded(false, false, false)));
      return Ok(Page(data, PerPage(perPage)));
    }

    /** `store`: validate, keep the uploaded image, insert an unpublished recipe owned by the actor. */
    method RecetaStore(actor: User, titulo: Option<string>, descripcion: Option<string>, instrucciones: Option<string>,
                       imagen: Option<Upload>, now: int) returns (r: Result<Receta, Error>)
      requires Valid()
      modifies this
      ensures Valid()
      ensures r.Err? <==> !StoreRecetaRules(titulo, descripcion, instrucciones, imagen)
      ensures r.Err? ==> r.error == Invalid && unchanged(this)
      ensures r.Ok? ==> r.value == Receta(old(nextId), actor.id, titulo.value, descripcion.value, instrucciones.value,
                                          if imagen.Some? then Some(imagen.value.storedPath) else None, false, now)
      ensures r.Ok? ==> recetas == old(recetas) + [r.value] && nextId == old(nextId) + 1
      ensures r.Ok? ==> files == old(files) + if imagen.Some? then {imagen.value.storedPath} else {}
      ensures ingredientes == old(ingredientes) && likes == old(likes) && comentarios == old(comentarios)
    {
      if !StoreRecetaRules(titulo, descripcion, instrucciones, imagen) {
        return Err(Invalid);
      }
      var imagenUrl: Option<string> := None;
      if imagen.Some? {
        var path := HandleImageUpload(imagen.value).value;
        files := files + {path};
        imagenUrl := Some(path);
      }
      var receta := Receta(nextId, actor.id, titulo.value, descripcion.value, instrucciones.value, imagenUrl, false, now);
      InsertRecetaConsistent(recetas, ingredientes, likes, comentarios, nextId, receta);
      recetas := recetas + [receta];
      nextId := nextId + 1;
      r := Ok(receta);
    }

    /** `show`: the recipe with its ingredients, comments and counts. */
    method RecetaShow(viewer: Option<User>, id: nat) returns (r: Result<RecetaResource.RecetaJson, Error>)
      ensures r.Err? <==> id !in RecetaIds(recetas)
      ensures r.Err? ==> r.error == NotFound
      ensures r.Ok? ==> r.value == RecetaResource.ToArray(FindReceta(recetas, id).value, ingredientes, likes, comentarios,
                                                          viewer, RecetaResource.Loaded(true, true, true))
      ensures r.Ok? ==> r.value.id == id && r.value.likesCount == LikesCount(likes, id)
    {
      var found := FindReceta(recetas, id);
      if found.None? {
        return Err(NotFound);
      }
      return Ok(RecetaResource.ToArray(found.value, ingredientes, likes, comentarios, viewer, RecetaResource.Loaded(true, true, true)));
    }

    /**
     * `update`: owner or admin only, never a published recipe; the sent
     * fields replace the stored ones, and a new image replaces the old file.
     */
    method RecetaUpdate(actor: User, id: nat, titulo: Option<string>, descripcion: Option<string>, instrucciones: Option<string>,
                        imagen: Option<Upload>) returns (r: Result<Receta, Error>)
      requires Valid()
      modifies this
      ensures Valid()
      ensures r.Err? ==> unchanged(this)
      ensures id !in RecetaIds(old(recetas)) ==> r == Err(NotFound)
      ensures id in RecetaIds(old(recetas)) ==>
        var cur := FindReceta(old(recetas), id).value;
        && (!RecetaPolicy.Update(actor, cur) ==> r == Err(Forbidden))
        && (RecetaPolicy.Update(actor, cur) && cur.publicada ==> r == Err(Unmodifiable))
        && (RecetaPolicy.Update(actor, cur) && !cur.publicada && !UpdateRecetaRules(titulo, descripcion, instrucciones, imagen) ==> r == Err(Invalid))
        && (r.Ok? <==> RecetaPolicy.Update(actor, cur) && !cur.publicada && UpdateRecetaRules(titulo, descripcion, instrucciones, imagen))
        && (r.Ok? ==> r.value == Receta(id, cur.userId, Patched(titulo, cur.titulo), Patched(descripcion, cur.descripcion),
                                        Patched(instrucciones, cur.instrucciones),
                                        if imagen.Some? then Some(imagen.value.storedPath) else cur.imagenUrl,
                                        cur.publicada, cur.createdAt))
        && (r.Ok? ==> files == if imagen.Some? then DeleteImage(old(files), cur.imagenUrl) + {imagen.value.storedPath} else old(files))
      ensures r.Ok? ==> recetas == Replace(old(recetas), RecetaIdIs(id), r.value)
      ensures ingredientes == old(ingredientes) && likes == old(likes) && comentarios == old(comentarios) && nextId == old(nextId)
    {
      var found := FindReceta(recetas, id);
      if found.None? {
        return Err(NotFound);
      }
      var cur := found.value;
      if !RecetaPolicy.Update(actor, cur) {
        return Err(Forbidden);
      }
      var guard := AssertCanBeModified(cur);
      if guard.Fail? {
        return Err(guard.error);
      }
      if !UpdateRecetaRules(titulo, descripcion, instrucciones, imagen) {
        return Err(Invalid);
      }
      var updated := SaveRecetaUpdate(cur, titulo, descripcion, instrucciones, imagen);
      r := Ok(updated);
    }

    /** The accepted update: the image is replaced when one was sent, then the row is rewritten with the sent fields. */
    method SaveRecetaUpdate(cur: Receta, titulo: Option<string>, descripcion: Option<string>, instrucciones: Option<string>,
                            imagen: Option<Upload>) returns (updated: Receta)
      requires Valid() && cur in recetas
      requires imagen.Some? ==> ImageAcceptable(imagen.value)
      modifies this
      ensures Valid()
      ensures updated == Receta(cur.id, cur.userId, Patched(titulo, cur.titulo), Patched(descripcion, cur.descripcion),
                                Patched(instrucciones, cur.instrucciones),
                                if imagen.Some? then Some(imagen.value.storedPath) else cur.imagenUrl,
                                cur.publicada, cur.createdAt)
      ensures files == if imagen.Some? then DeleteImage(old(files), cur.imagenUrl) + {imagen.value.storedPath} else old(files)
      ensures recetas == Replace(old(recetas), RecetaIdIs(cur.id), updated)
      ensures ingredientes == old(ingredientes) && likes == old(likes) && comentarios == old(comentarios) && nextId == old(nextId)
    {
      var imagenUrl := cur.imagenUrl;
      if imagen.Some? {
        var path := ReplaceImage(cur.imagenUrl, imagen.value);
        imagenUrl := Some(path);
      }
      updated := Receta(cur.id, cur.userId, Patched(titulo, cur.titulo), Patched(descripcion, cur.descripcion),
                        Patched(instrucciones, cur.instrucciones), imagenUrl, cur.publicada, cur.createdAt);
      ReplaceRecetaConsistent(recetas, ingredientes, likes, comentarios, nextId, updated);
      recetas := Replace(recetas, RecetaIdIs(cur.id), updated);
    }

    /** The old image file is deleted and the accepted upload is kept in its place. */
    method ReplaceImage(current: Option<string>, imagen: Upload) returns (path: string)
      requires ImageAcceptable(imagen)
      modifies this
      ensures path == imagen.storedPath
      ensures files == DeleteImage(old(files), current) + {path}
      ensures recetas == old(recetas) && ingredientes == old(ingredientes) && likes == old(likes)
      ensures comentarios == old(comentarios) && nextId == old(nextId)
    {
      files := DeleteImage(files, current);
      path := HandleImageUpload(imagen).value;
      files := files + {path};
    }

    /** `destroy`: owner or admin only; the image file goes, and the cascade removes the recipe's rows. */
    method RecetaDestroy(actor: User, id: nat) returns (r: Outcome<Error>)
      requires Valid()
      modifies this
      ensures Valid()
      ensures r.Fail? ==> unchanged(this)
      ensures id !in RecetaIds(old(recetas)) ==> r == Fail(NotFound)
      ensures id in RecetaIds(old(recetas)) ==>
        var cur := FindReceta(old(recetas), id).value;
        && (r.Pass? <==> RecetaPolicy.Delete(actor, cur))
        && (r.Fail? ==> r.error == Forbidden)
        && (r.Pass? ==> files == DeleteImage(old(files), cur.imagenUrl))
      ensures r.Pass? ==> RecetaIds(recetas) == RecetaIds(old(recetas)) - {id}
      ensures r.Pass? ==> recetas == Where(old(recetas), RecetaIdIsNot(id))
      ensures r.Pass? ==> ingredientes == Where(old(ingredientes), IngredienteNotOf(id))
      ensures r.Pass? ==> likes == Where(old(likes), LikeNotOf(id))
      ensures r.Pass? ==> comentarios == Where(old(comentarios), ComentarioNotOf(id))
      ensures nextId == old(nextId)
    {
      var found := FindReceta(recetas, id);
      if found.None? {
        return Fail(NotFound);
      }
      var cur := found.value;
      if !RecetaPolicy.Delete(actor, cur) {
        return Fail(Forbidden);
      }
      files := DeleteImage(files, cur.imagenUrl);
      DeleteCascade(id);
      r := Pass;
    }

    /** Deletes the recipe's row and, by the foreign keys' cascade, its ingredients, likes and comments. */
    method DeleteCascade(id: nat)
      requires Valid()
      modifies this
      ensures Valid()
      ensures RecetaIds(recetas) == RecetaIds(old(recetas)) - {id}
      ensures recetas == Where(old(recetas), RecetaIdIsNot(id))
      ensures ingredientes == Where(old(ingredientes), IngredienteNotOf(id))
      ensures likes == Where(old(likes), LikeNotOf(id))
      ensures comentarios == Where(old(comentarios), ComentarioNotOf(id))
      ensures files == old(files) && nextId == old(nextId)
    {
      DeleteIngredientesOf(id);
      DeleteLikesOf(id);
      DeleteComentariosOf(id);
      DeleteRecetaRow(id);
    }

    method DeleteIngredientesOf(id: nat)
      requires Valid()
      modifies this
      ensures Valid()
      ensures ingredientes == Where(old(ingredientes), IngredienteNotOf(id))
      ensures forall i :: i in ingredientes ==> i.recetaId != id
      ensures recetas == old(recetas) && likes == old(likes) && comentarios == old(comentarios)
      ensures files == old(files) && nextId == old(nextId)
    {
      DeleteIngredientesOfConsistent(recetas, ingredientes, likes, comentarios, nextId, id);
      ingredientes := Where(ingredientes, IngredienteNotOf(id));
    }

    method DeleteLikesOf(id: nat)
      requires Valid()
      modifies this
      ensures Valid()
      ensures likes == Where(old(likes), LikeNotOf(id))
      ensures forall l :: l in likes ==> l.recetaId != id
      ensures recetas == old(recetas) && ingredientes == old(ingredientes) && comentarios == old(comentarios)
      ensures files == old(files) && nextId == old(nextId)
    {
      DeleteLikesOfConsistent(recetas, ingredientes, likes, comentarios, nextId, id);
      likes := Where(likes, LikeNotOf(id));
    }

    method DeleteComentariosOf(id: nat)
      requires Valid()
      modifies this
      ensures Valid()
      ensures comentarios == Where(old(comentarios), ComentarioNotOf(id))
      ensures forall c :: c in comentarios ==> c.recetaId != id
      ensures recetas == old(recetas) && ingredientes == old(ingredientes) && likes == old(likes)
      ensures files == old(files) && nextId == old(nextId)
    {
      DeleteComentariosOfConsistent(recetas, ingredientes, likes, comentarios, nextId, id);
      comentarios := Where(comentarios, ComentarioNotOf(id));
    }

    method DeleteRecetaRow(id: nat)
      requires Valid()
      requires forall i :: i in ingredientes ==> i.recetaId != id
      requires forall l :: l in likes ==> l.recetaId != id
      requires forall c :: c in comentarios ==> c.recetaId != id
      modifies this
      ensures Valid()
      ensures recetas == Where(old(recetas), RecetaIdIsNot(id))
      ensures RecetaIds(recetas) == RecetaIds(old(recetas)) - {id}
      ensures ingredientes == old(ingredientes) && likes == old(likes) && comentarios == old(comentarios)
      ensures files == old(files) && nextId == old(nextId)
    {
      DeleteChildlessRecetaConsistent(recetas, ingredientes, likes, comentarios, nextId, id);
      recetas := Where(recetas, RecetaIdIsNot(id));
    }

    // --------------------------------------------------------------- comments

    /** `index` of comments: the recipe's comments, newest first. */
    method ComentariosIndex(recetaId: nat) returns (r: Result<seq<Comentario>, Error>)
      ensures r.Err? <==> recetaId !in RecetaIds(recetas)
      ensures r.Err? ==> r.error == NotFound
      ensures r.Ok? ==> multiset(r.value) == multiset(ComentariosOf(comentarios, recetaId))
      ensures r.Ok? ==> forall c :: c in r.value <==> c in comentarios && c.recetaId == recetaId
      ensures r.Ok? ==> forall i, j :: 0 <= i < j < |r.value| ==> r.value[i].createdAt >= r.value[j].createdAt
    {
      if recetaId !in RecetaIds(recetas) {
        return Err(NotFound);
      }
      var mine := ComentariosOf(comentarios, recetaId);
      var rows := Latest(mine);
      forall c ensures c in rows <==> c in mine {
        assert c in rows <==> c in multiset(rows);
        assert c in mine <==> c in multiset(mine);
      }
      return Ok(rows);
    }

    /** `store`: any authenticated user comments on an existing recipe. */
    method ComentarioStore(actor: User, recetaId: nat, texto: Option<string>, now: int) returns (r: Result<Comentario, Error>)
      requires Valid()
      modifies this
      ensures Valid()
      ensures r.Err? ==> unchanged(this)
      ensures recetaId !in RecetaIds(old(recetas)) ==> r == Err(NotFound)
      ensures recetaId in RecetaIds(old(recetas)) && !ComentarioRules(texto) ==> r == Err(Invalid)
      ensures r.Ok? <==> recetaId in RecetaIds(old(recetas)) && ComentarioRules(texto)
      ensures r.Ok? ==> r.value == Comentario(old(nextId), recetaId, actor.id, texto.value, now)
      ensures r.Ok? ==> comentarios == old(comentarios) + [r.value] && nextId == old(nextId) + 1
      ensures recetas == old(recetas) && ingredientes == old(ingredientes) && likes == old(likes) && files == old(files)
    {
      if recetaId !in RecetaIds(recetas) {
        return Err(NotFound);
      }
      if !ComentarioRules(texto) {
        return Err(Invalid);
      }
      var c := Comentario(nextId, recetaId, actor.id, texto.value, now);
      InsertComentarioConsistent(recetas, ingredientes, likes, comentarios, nextId, c);
      comentarios := comentarios + [c];
      nextId := nextId + 1;
      r := Ok(c);
    }

    /** `show` of a comment. */
    method ComentarioShow(id: nat) returns (r: Result<Comentario, Error>)
      ensures r.Err? <==> !exists c :: c in comentarios && c.id == id
      ensures r.Err? ==> r.error == NotFound
      ensures r.Ok? ==> r.value in comentarios && r.value.id == id
    {
      var found := FindComentario(comentarios, id);
      if found.None? {
        return Err(NotFound);
      }
      return Ok(found.value);
    }

    /** `update`: the author or an admin rewrites the text; nothing else about the comment changes. */
    method ComentarioUpdate(actor: User, id: nat, texto: Option<string>) returns (r: Result<Comentario, Error>)
      requires Valid()
      modifies this
      ensures Valid()
      ensures r.Err? ==> unchanged(this)
      ensures FindComentario(old(comentarios), id).None? ==> r == Err(NotFound)
      ensures FindComentario(old(comentarios), id).Some? ==>
        var cur := FindComentario(old(comentarios), id).value;
        && (!ComentarioPolicy.Update(actor, cur) ==> r == Err(Forbidden))
        && (ComentarioPolicy.Update(actor, cur) && !ComentarioRules(texto) ==> r == Err(Invalid))
        && (r.Ok? <==> ComentarioPolicy.Update(actor, cur) && ComentarioRules(texto))
        && (r.Ok? ==> r.value == cur.(texto := texto.value))
      ensures r.Ok? ==> comentarios == Replace(old(comentarios), ComentarioIdIs(id), r.value)
      ensures recetas == old(recetas) && ingredientes == old(ingredientes) && likes == old(likes)
      ensures files == old(files) && nextId == old(nextId)
    {
      var found := FindComentario(comentarios, id);
      if found.None? {
        return Err(NotFound);
      }
      var cur := found.value;
      if !ComentarioPolicy.Update(actor, cur) {
        return Err(Forbidden);
      }
      if !ComentarioRules(texto) {
        return Err(Invalid);
      }
      var updated := cur.(texto := texto.value);
      ComentarioHasReceta(recetas, ingredientes, likes, comentarios, nextId, cur);
      ReplaceComentarioConsistent(recetas, ingredientes, likes, comentarios, nextId, updated);
      comentarios := Replace(comentarios, ComentarioIdIs(id), updated);
      r := Ok(updated);
    }

    /** `destroy`: the author or an admin deletes the comment. */
    method ComentarioDestroy(actor: User, id: nat) returns (r: Outcome<Error>)
      requires Valid()
      modifies this
      ensures Valid()
      ensures r.Fail? ==> unchanged(this)
      ensures FindComentario(old(comentarios), id).None? ==> r == Fail(NotFound)
      ensures FindComentario(old(comentarios), id).Some? ==>
        var cur := FindComentario(old(comentarios), id).value;
        && (r.Pass? <==> ComentarioPolicy.Delete(actor, cur))
        && (r.Fail? ==> r.error == Forbidden)
      ensures r.Pass? ==> comentarios == Where(old(comentarios), ComentarioIdIsNot(id))
      ensures recetas == old(recetas) && ingredientes == old(ingredientes) && likes == old(likes)
      ensures files == old(files) && nextId == old(nextId)
    {
      var found := FindComentario(comentarios, id);
      if found.None? {
        return Fail(NotFound);
      }
      if !ComentarioPolicy.Delete(actor, found.value) {
        return Fail(Forbidden);
      }
      DeleteComentarioConsistent(recetas, ingredientes, likes, comentarios, nextId, id);
      comentarios := Where(comentarios, ComentarioIdIsNot(id));
      r := Pass;
    }

    // ------------------------------------------------------------ ingredients

    /** `index` of ingredients: exactly the recipe's ingredients, in key order, which the query does not ask for. */
    method IngredientesIndex(recetaId: nat) returns (r: Result<seq<Ingrediente>, Error>)
      ensures r.Err? <==> recetaId !in RecetaIds(recetas)
      ensures r.Err? ==> r.error == NotFound
      ensures r.Ok? ==> forall i :: i in r.value <==> i in ingredientes && i.recetaId == recetaId
      ensures r.Ok? ==> IsSubsequence(r.value, ingredientes)
    {
      if recetaId !in RecetaIds(recetas) {
        return Err(NotFound);
      }
      var rows := IngredientesOf(ingredientes, recetaId);
      WhereIsSubsequence(ingredientes, (i: Ingrediente) => i.recetaId == recetaId);
      return Ok(rows);
    }

    /** `store`: the recipe's owner or an admin adds an ingredient. */
    method IngredienteStore(actor: User, recetaId: nat, nombre: Option<string>, cantidad: Option<string>, unidad: Option<string>)
      returns (r: Result<Ingrediente, Error>)
      requires Valid()
      modifies this
      ensures Valid()
      ensures r.Err? ==> unchanged(this)
      ensures recetaId !in RecetaIds(old(recetas)) ==> r == Err(NotFound)
      ensures recetaId in RecetaIds(old(recetas)) ==>
        var receta := FindReceta(old(recetas), recetaId).value;
        && (!RecetaPolicy.Update(actor, receta) ==> r == Err(Forbidden))
        && (RecetaPolicy.Update(actor, receta) && !StoreIngredienteRules(nombre, cantidad, unidad) ==> r == Err(Invalid))
        && (r.Ok? <==> RecetaPolicy.Update(actor, receta) && StoreIngredienteRules(nombre, cantidad, unidad))
      ensures r.Ok? ==> r.value == Ingrediente(old(nextId), recetaId, nombre.value, cantidad.value, unidad.value)
      ensures r.Ok? ==> ingredientes == old(ingredientes) + [r.value] && nextId == old(nextId) + 1
      ensures recetas == old(recetas) && likes == old(likes) && comentarios == old(comentarios) && files == old(files)
    {
      var found := FindReceta(recetas, recetaId);
      if found.None? {
        return Err(NotFound);
      }
      if !RecetaPolicy.Update(actor, found.value) {
        return Err(Forbidden);
      }
      if !StoreIngredienteRules(nombre, cantidad, unidad) {
        return Err(Invalid);
      }
      var i := Ingrediente(nextId, recetaId, nombre.value, cantidad.value, unidad.value);
      InsertIngredienteConsistent(recetas, ingredientes, likes, comentarios, nextId, i);
      ingredientes := ingredientes + [i];
      nextId := nextId + 1;
      r := Ok(i);
    }

    /** `show` of an ingredient. */
    method IngredienteShow(id: nat) returns (r: Result<Ingrediente, Error>)
      ensures r.Err? <==> !exists i :: i in ingredientes && i.id == id
      ensures r.Err? ==> r.error == NotFound
      ensures r.Ok? ==> r.value in ingredientes && r.value.id == id
    {
      var found := FindIngrediente(ingredientes, id);
      if found.None? {
        return Err(NotFound);
      }
      return Ok(found.value);
    }

    /** `update`: the recipe's owner or an admin changes the sent fields of an ingredient. */
    method IngredienteUpdate(actor: User, id: nat, nombre: Option<string>, cantidad: Option<string>, unidad: Option<string>)
      returns (r: Result<Ingrediente, Error>)
      requires Valid()
      modifies this
      ensures Valid()
      ensures r.Err? ==> unchanged(this)
      ensures FindIngrediente(old(ingredientes), id).None? ==> r == Err(NotFound)
      ensures FindIngrediente(old(ingredientes), id).Some? ==>
        var cur := FindIngrediente(old(ingredientes), id).value;
        var receta := FindReceta(old(recetas), cur.recetaId).value;
        && receta.id == cur.recetaId
        && (!IngredientePolicy.Update(actor, cur, receta) ==> r == Err(Forbidden))
        && (IngredientePolicy.Update(actor, cur, receta) && !UpdateIngredienteRules(nombre, cantidad, unidad) ==> r == Err(Invalid))
        && (r.Ok? <==> IngredientePolicy.Update(actor, cur, receta) && UpdateIngredienteRules(nombre, cantidad, unidad))
        && (r.Ok? ==> r.value == Ingrediente(id, cur.recetaId, Patched(nombre, cur.nombre), Patched(cantidad, cur.cantidad),
                                             Patched(unidad, cur.unidad)))
      ensures r.Ok? ==> ingredientes == Replace(old(ingredientes), IngredienteIdIs(id), r.value)
      ensures recetas == old(recetas) && likes == old(likes) && comentarios == old(comentarios)
      ensures files == old(files) && nextId == old(nextId)
    {
      var found := FindIngrediente(ingredientes, id);
      if found.None? {
        return Err(NotFound);
      }
      var cur := found.value;
      IngredienteHasReceta(recetas, ingredientes, likes, comentarios, nextId, cur);
      var receta := FindReceta(recetas, cur.recetaId).value;
      if !IngredientePolicy.Update(actor, cur, receta) {
        return Err(Forbidden);
      }
      if !UpdateIngredienteRules(nombre, cantidad, unidad) {
        return Err(Invalid);
      }
      var updated := Ingrediente(id, cur.recetaId, Patched(nombre, cur.nombre), Patched(cantidad, cur.cantidad), Patched(unidad, cur.unidad));
      ReplaceIngredienteConsistent(recetas, ingredientes, likes, comentarios, nextId, updated);
      ingredientes := Replace(ingredientes, IngredienteIdIs(id), updated);
      r := Ok(updated);
    }

    /** `destroy`: the recipe's owner or an admin deletes an ingredient. */
    method IngredienteDestroy(actor: User, id: nat) returns (r: Outcome<Error>)
      requires Valid()
      modifies this
      ensures Valid()
      ensures r.Fail? ==> unchanged(this)
      ensures FindIngrediente(old(ingredientes), id).None? ==> r == Fail(NotFound)
      ensures FindIngrediente(old(ingredientes), id).Some? ==>
        var cur := FindIngrediente(old(ingredientes), id).value;
        var receta := FindReceta(old(recetas), cur.recetaId).value;
        && receta.id == cur.recetaId
        && (r.Pass? <==> IngredientePolicy.Delete(actor, cur, receta))
        && (r.Fail? ==> r.error == Forbidden)
      ensures r.Pass? ==> ingredientes == Where(old(ingredientes), IngredienteIdIsNot(id))
      ensures recetas == old(recetas) && likes == old(likes) && comentarios == old(comentarios)
      ensures files == old(files) && nextId == old(nextId)
    {
      var found := FindIngrediente(ingredientes, id);
      if found.None? {
        return Fail(NotFound);
      }
      var cur := found.value;
      IngredienteHasReceta(recetas, ingredientes, likes, comentarios, nextId, cur);
      var receta := FindReceta(recetas, cur.recetaId).value;
      if !IngredientePolicy.Delete(actor, cur, receta) {
        return Fail(Forbidden);
      }
      DeleteIngredienteConsistent(recetas, ingredientes, likes, comentarios, nextId, id);
      ingredientes := Where(ingredientes, IngredienteIdIsNot(id));
      r := Pass;
    }
  }
}
