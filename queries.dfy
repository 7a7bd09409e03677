/**
 * The read side of the controllers: primary-key lookups, the listing's
 * filter-then-sort pipeline, the page-size clamp, the comment order, and the
 * validation rules of each write endpoint.
 */
module Queries {
  import opened Wrappers
  import opened Entities
  import opened Seqs
  import opened Text
  import opened Sorting
  import opened RecetaModel
  import opened RecetaService
  import opened Tables

  /** `Receta::find($id)`: the row with that key. */
  function FindReceta(recetas: seq<Receta>, id: nat): (o: Option<Receta>)
    ensures o.Some? <==> id in RecetaIds(recetas)
    ensures o.Some? ==> o.value in recetas && o.value.id == id
  {
    First(recetas, RecetaIdIs(id))
  }

  function FindIngrediente(ingredientes: seq<Ingrediente>, id: nat): (o: Option<Ingrediente>)
    ensures o.Some? <==> exists i :: i in ingredientes && i.id == id
    ensures o.Some? ==> o.value in ingredientes && o.value.id == id
  {
    First(ingredientes, IngredienteIdIs(id))
  }

  function FindComentario(comentarios: seq<Comentario>, id: nat): (o: Option<Comentario>)
    ensures o.Some? <==> exists c :: c in comentarios && c.id == id
    ensures o.Some? ==> o.value in comentarios && o.value.id == id
  {
    First(comentarios, ComentarioIdIs(id))
  }

  /** The page size: `per_page` capped at 50, 10 when absent. */
  function PerPage(perPage: Option<int>): (n: int)
    ensures n <= 50
    ensures perPage.None? ==> n == 10
    ensures perPage.Some? ==> n <= perPage.value && (n == perPage.value || n == 50)
  {
    var requested := if perPage.Some? then perPage.value else 10;
    if requested < 50 then requested else 50
  }

  /** The listing before pagination: the filters, then the requested order. */
  function Listing(recetas: seq<Receta>, f: Filters, sort: Option<string>, ingredientes: seq<Ingrediente>, likes: seq<Like>)
    : (r: Result<seq<Receta>, Error>)
    ensures r.Err? <==> f.minLikes.Some?
    ensures r.Ok? ==> multiset(r.value) == multiset(Where(recetas, FiltersCond(f, ingredientes)))
    ensures r.Ok? ==> forall x :: x in r.value <==> x in recetas && PassesFilters(x, f, ingredientes)
    ensures r.Ok? ==> r.value == ApplySort(Where(recetas, FiltersCond(f, ingredientes)), sort, likes)
    ensures r.Ok? && Falsy(sort) ==> r.value == Where(recetas, FiltersCond(f, ingredientes))
    ensures r.Ok? && (sort == Some("popular") || sort == Some("-popular")) ==>
      forall i, j :: 0 <= i < j < |r.value| ==> LikesCount(likes, r.value[i].id) >= LikesCount(likes, r.value[j].id)
  {
    match ApplyFilters(recetas, f, ingredientes)
    case Err(e) => Err(e)
    case Ok(q) =>
      FiltersAsOneWhere(recetas, f, ingredientes);
      var sorted := ApplySort(q, sort, likes);
      assert forall x :: x in sorted <==> x in multiset(sorted);
      Ok(sorted)
  }

  const CreatedAtKey: Comentario -> Key := (c: Comentario) => Num(c.createdAt)

  /** `latest()`: the comments newest first. */
  function Latest(comentarios: seq<Comentario>): (r: seq<Comentario>)
    ensures multiset(r) == multiset(comentarios)
    ensures forall i, j :: 0 <= i < j < |r| ==> r[i].createdAt >= r[j].createdAt
  {
    var r := Sort(comentarios, CreatedAtKey, Desc);
    assert forall i, j :: 0 <= i < j < |r| ==> InOrder(CreatedAtKey(r[i]), CreatedAtKey(r[j]), Desc);
    r
  }

  /** `titulo`, `descripcion`, `instrucciones` required, `imagen` optional. */
  predicate StoreRecetaRules(titulo: Option<string>, descripcion: Option<string>, instrucciones: Option<string>, imagen: Option<Upload>)
  {
    RequiredMax(titulo, 200) && Required(descripcion) && Required(instrucciones) &&
    (imagen.None? || ImageAcceptable(imagen.value))
  }

  /** The same fields, each checked only when sent. */
  predicate UpdateRecetaRules(titulo: Option<string>, descripcion: Option<string>, instrucciones: Option<string>, imagen: Option<Upload>)
  {
    SometimesRequiredMax(titulo, 200) && SometimesRequired(descripcion) && SometimesRequired(instrucciones) &&
    (imagen.None? || ImageAcceptable(imagen.value))
  }

  /** `texto` required, at most 1000 characters. */
  predicate ComentarioRules(texto: Option<string>)
  {
    RequiredMax(texto, 1000)
  }

  /** `nombre` up to 100, `cantidad` and `unidad` up to 50, all required. */
  predicate StoreIngredienteRules(nombre: Option<string>, cantidad: Option<string>, unidad: Option<string>)
  {
    RequiredMax(nombre, 100) && RequiredMax(cantidad, 50) && RequiredMax(unidad, 50)
  }

  /** The same fields, each checked only when sent. */
  predicate UpdateIngredienteRules(nombre: Option<string>, cantidad: Option<string>, unidad: Option<string>)
  {
    SometimesRequiredMax(nombre, 100) && SometimesRequiredMax(cantidad, 50) && SometimesRequiredMax(unidad, 50)
  }

  /** A comment is accepted exactly when `texto` is sent, has at most 1000 characters and keeps a character after `trim`. */
  lemma ComentarioRulesIff(texto: Option<string>)
    ensures ComentarioRules(texto) <==>
      texto.Some? && |texto.value| <= 1000 && exists k :: 0 <= k < |texto.value| && !TrimmedChar(texto.value[k])
  {
    if texto.Some? {
      BlankIff(texto.value);
    }
  }

  /** A run of spaces of any length is refused as a comment and as an ingredient's name, quantity or unit. */
  lemma WhitespaceIsRejected(n: nat, ok: string)
    ensures !ComentarioRules(Some(seq(n, _ => ' ')))
    ensures !StoreIngredienteRules(Some(seq(n, _ => ' ')), Some(ok), Some(ok))
    ensures !StoreIngredienteRules(Some(ok), Some(ok), Some(seq(n, _ => ' ')))
    ensures !UpdateIngredienteRules(None, Some(seq(n, _ => ' ')), None)
  {
    BlankIff(seq(n, _ => ' '));
  }

  /**
   * A sort naming a whitelisted column, with or without a leading dash, lists
   * the filtered recipes ordered by that column: ascending without the dash,
   * descending with it.
   */
  lemma ListingFollowsSortColumn(recetas: seq<Receta>, f: Filters, sort: string, ingredientes: seq<Ingrediente>, likes: seq<Like>)
    requires f.minLikes.None?
    requires !Falsy(Some(sort)) && sort != "popular" && sort != "-popular"
    ensures var r := Listing(recetas, f, Some(sort), ingredientes, likes);
      && r.Ok?
      && (SortField(sort) == "titulo" ==>
            forall i, j :: 0 <= i < j < |r.value| ==> InOrder(Str(r.value[i].titulo), Str(r.value[j].titulo), SortDirection(sort)))
      && (SortField(sort) == "created_at" ==>
            forall i, j :: 0 <= i < j < |r.value| ==> InOrder(Num(r.value[i].createdAt), Num(r.value[j].createdAt), SortDirection(sort)))
      && (SortField(sort) == "likes_count" ==>
            forall i, j :: 0 <= i < j < |r.value| ==>
              InOrder(Num(LikesCount(likes, r.value[i].id)), Num(LikesCount(likes, r.value[j].id)), SortDirection(sort)))
  {
  }

  /** A listing without filters shows every recipe. */
  lemma UnfilteredListingShowsAll(recetas: seq<Receta>, sort: Option<string>, ingredientes: seq<Ingrediente>, likes: seq<Like>)
    ensures var r := Listing(recetas, Filters(None, None, None), sort, ingredientes, likes);
      r.Ok? && multiset(r.value) == multiset(recetas)
  {
    WhereKeepsAll(recetas, FiltersCond(Filters(None, None, None), ingredientes));
  }
}
