/**
 * The recipe model: its relations to ingredients, likes and comments, the
 * derived attributes (like count, liked-by, full image URL) and the query
 * scopes the listing endpoint composes (search, ingredient match,
 * popularity order, whitelisted field order).
 *
 * A query is a sequence of recipes, held in primary-key order until a scope
 * sorts it (the database gives an unsorted query no order); a scope maps it
 * to a new sequence. Relations are read from the tables passed alongside.
 */
module RecetaModel {
  import opened Wrappers
  import opened Entities
  import opened Text
  import opened Seqs
  import opened Sorting

  // ---------------------------------------------------------------- relations

  function IngredientesOf(ingredientes: seq<Ingrediente>, recetaId: nat): seq<Ingrediente>
  {
    Where(ingredientes, (i: Ingrediente) => i.recetaId == recetaId)
  }

  function LikesOf(likes: seq<Like>, recetaId: nat): seq<Like>
  {
    Where(likes, (l: Like) => l.recetaId == recetaId)
  }

  function ComentariosOf(comentarios: seq<Comentario>, recetaId: nat): seq<Comentario>
  {
    Where(comentarios, (c: Comentario) => c.recetaId == recetaId)
  }

  // ------------------------------------------------------- derived attributes

  /** `likes_count`: the number of like rows that point at the recipe. */
  function LikesCount(likes: seq<Like>, recetaId: nat): (n: nat)
    ensures n <= |likes|
    ensures n == 0 <==> forall l :: l in likes ==> l.recetaId != recetaId
  {
    var rows := LikesOf(likes, recetaId);
    assert rows != [] ==> rows[0] in rows;
    |rows|
  }

  /** A like row for the pair (user, recipe) exists. */
  predicate HasLike(likes: seq<Like>, userId: nat, recetaId: nat)
  {
    exists l :: l in likes && l.userId == userId && l.recetaId == recetaId
  }

  /** `isLikedBy`: false without a user, else whether one of the recipe's likes is that user's. */
  function IsLikedBy(likes: seq<Like>, recetaId: nat, user: Option<User>): (b: bool)
    ensures user.None? ==> !b
    ensures user.Some? ==> (b <==> exists l :: l in LikesOf(likes, recetaId) && l.userId == user.value.id)
  {
    user.Some? && HasLike(likes, user.value.id, recetaId)
  }

  /** A recipe that the viewer likes has at least one like. */
  lemma LikedIsCounted(likes: seq<Like>, recetaId: nat, user: Option<User>)
    requires IsLikedBy(likes, recetaId, user)
    ensures LikesCount(likes, recetaId) > 0
  {
    var l :| l in likes && l.userId == user.value.id && l.recetaId == recetaId;
  }

  /** The root `asset()` prefixes, ending with a slash. */
  const AssetRoot: string := "http://localhost/"

  /** `asset($path)`: the root followed by `path` trimmed of slashes at both ends. */
  function Asset(path: string): string
  {
    AssetRoot + RTrim(LTrim(path, '/'), '/')
  }

  /**
   * `imagen_url_completa`: no URL for a falsy path, an absolute `http…` value
   * as it is, and otherwise the public-storage URL of the stored path.
   */
  function ImagenUrlCompleta(imagenUrl: Option<string>): (r: Option<string>)
    ensures r.None? <==> Falsy(imagenUrl)
    ensures !Falsy(imagenUrl) && StartsWith(imagenUrl.value, "http") ==> r == imagenUrl
    ensures !Falsy(imagenUrl) && !StartsWith(imagenUrl.value, "http") ==>
      StartsWith(r.value, AssetRoot + "storage")
    ensures !Falsy(imagenUrl) && !StartsWith(imagenUrl.value, "http") && imagenUrl.value[|imagenUrl.value| - 1] != '/' ==>
      r.value == AssetRoot + "storage/" + imagenUrl.value
  {
    if Falsy(imagenUrl) then
      None
    else if StartsWith(imagenUrl.value, "http") then
      imagenUrl
    else
      var path := "storage/" + imagenUrl.value;
      assert LTrim(path, '/') == path;
      var t := RTrim(path, '/');
      assert path[6] == 'e';
      assert |t| >= |"storage"|;
      assert t[..|"storage"|] == "storage";
      Some(Asset(path))
  }

  /** Every URL the accessor produces is absolute, so applying it again changes nothing. */
  lemma ImagenUrlCompletaIdempotent(imagenUrl: Option<string>)
    ensures ImagenUrlCompleta(imagenUrl).Some? ==> StartsWith(ImagenUrlCompleta(imagenUrl).value, "http")
    ensures ImagenUrlCompleta(ImagenUrlCompleta(imagenUrl)) == ImagenUrlCompleta(imagenUrl)
  {
    var r := ImagenUrlCompleta(imagenUrl);
    if r.Some? {
      if !StartsWith(imagenUrl.value, "http") {
        assert AssetRoot + "storage" <= r.value;
        assert r.value[..4] == "http";
      }
      assert r.value != "" && r.value != "0" by {
        assert |r.value| >= 4 && r.value[..4] == "http";
      }
    }
  }

  // ------------------------------------------------------------- query scopes

  /** The row condition of `buscar`: the title or the description contains the term. */
  predicate MatchesTermino(r: Receta, termino: string)
  {
    ContainsCI(r.titulo, termino) || ContainsCI(r.descripcion, termino)
  }

  function TerminoFilter(termino: string): Receta -> bool
  {
    (r: Receta) => MatchesTermino(r, termino)
  }

  /** `buscar($termino)`: no-op for a falsy term, else the recipes matching it. */
  function Buscar(q: seq<Receta>, termino: Option<string>): (r: seq<Receta>)
    ensures Falsy(termino) ==> r == q
    ensures !Falsy(termino) ==> forall x :: x in r <==> x in q && MatchesTermino(x, termino.value)
    ensures !Falsy(termino) ==> IsSubsequence(r, q)
  {
    if Falsy(termino) then
      q
    else
      WhereIsSubsequence(q, TerminoFilter(termino.value));
      Where(q, TerminoFilter(termino.value))
  }

  /** The row condition of `conIngrediente`: one of the recipe's ingredients is named like the term. */
  predicate HasIngredienteMatching(ingredientes: seq<Ingrediente>, r: Receta, termino: string)
  {
    exists i :: i in IngredientesOf(ingredientes, r.id) && ContainsCI(i.nombre, termino)
  }

  function IngredienteFilter(ingredientes: seq<Ingrediente>, termino: string): Receta -> bool
  {
    (r: Receta) => HasIngredienteMatching(ingredientes, r, termino)
  }

  /** `conIngrediente($ingrediente)`: no-op for a falsy term, else the recipes with a matching ingredient. */
  function ConIngrediente(q: seq<Receta>, ingredientes: seq<Ingrediente>, termino: Option<string>): (r: seq<Receta>)
    ensures Falsy(termino) ==> r == q
    ensures !Falsy(termino) ==> forall x :: x in r <==> x in q && HasIngredienteMatching(ingredientes, x, termino.value)
    ensures !Falsy(termino) ==> IsSubsequence(r, q)
  {
    if Falsy(termino) then
      q
    else
      WhereIsSubsequence(q, IngredienteFilter(ingredientes, termino.value));
      Where(q, IngredienteFilter(ingredientes, termino.value))
  }

  /** A recipe without ingredients never passes an ingredient search. */
  lemma NoIngredientesNeverMatch(q: seq<Receta>, ingredientes: seq<Ingrediente>, termino: Option<string>, x: Receta)
    requires !Falsy(termino)
    requires forall i :: i in ingredientes ==> i.recetaId != x.id
    ensures x !in ConIngrediente(q, ingredientes, termino)
  {
    WhereKeepsNone(ingredientes, (i: Ingrediente) => i.recetaId == x.id);
  }

  /** The sort key of the popularity order: the recipe's like count. */
  function PopularityKey(likes: seq<Like>): Receta -> Key
  {
    (r: Receta) => Num(LikesCount(likes, r.id))
  }

  /** `porPopularidad()`: all the recipes, like counts non-increasing. */
  function PorPopularidad(q: seq<Receta>, likes: seq<Like>): (r: seq<Receta>)
    ensures multiset(r) == multiset(q)
    ensures forall i, j :: 0 <= i < j < |r| ==> LikesCount(likes, r[i].id) >= LikesCount(likes, r[j].id)
  {
    var r := Sort(q, PopularityKey(likes), Desc);
    assert forall i, j :: 0 <= i < j < |r| ==> InOrder(PopularityKey(likes)(r[i]), PopularityKey(likes)(r[j]), Desc);
    r
  }

  /** In the popularity order, every recipe after one without likes has none either. */
  lemma UnlikedComeLast(q: seq<Receta>, likes: seq<Like>, i: nat, j: nat)
    requires i < j < |PorPopularidad(q, likes)|
    requires LikesCount(likes, PorPopularidad(q, likes)[i].id) == 0
    ensures LikesCount(likes, PorPopularidad(q, likes)[j].id) == 0
  {
  }

  /** The columns `ordenarPor` accepts. */
  const CamposPermitidos: set<string> := {"titulo", "created_at", "likes_count"}

  function FieldKey(campo: string, likes: seq<Like>): Receta -> Key
  {
    if campo == "titulo" then (r: Receta) => Str(r.titulo)
    else if campo == "created_at" then (r: Receta) => Num(r.createdAt)
    else PopularityKey(likes)
  }

  /**
   * `ordenarPor($campo, $direccion)`: no-op for a falsy or non-whitelisted
   * column, else all the recipes ordered by that column in that direction.
   */
  function OrdenarPor(q: seq<Receta>, campo: Option<string>, dir: Direction, likes: seq<Like>): (r: seq<Receta>)
    ensures multiset(r) == multiset(q)
    ensures Falsy(campo) || campo.value !in CamposPermitidos ==> r == q
    ensures campo == Some("titulo") ==>
      forall i, j :: 0 <= i < j < |r| ==> InOrder(Str(r[i].titulo), Str(r[j].titulo), dir)
    ensures campo == Some("created_at") ==>
      forall i, j :: 0 <= i < j < |r| ==> InOrder(Num(r[i].createdAt), Num(r[j].createdAt), dir)
    ensures campo == Some("likes_count") ==>
      forall i, j :: 0 <= i < j < |r| ==> InOrder(Num(LikesCount(likes, r[i].id)), Num(LikesCount(likes, r[j].id)), dir)
  {
    if Falsy(campo) || campo.value !in CamposPermitidos then
      q
    else
      var key := FieldKey(campo.value, likes);
      var r := Sort(q, key, dir);
      assert forall i, j :: 0 <= i < j < |r| ==> InOrder(key(r[i]), key(r[j]), dir);
      r
  }

  /** The popularity order is the descending order on the `likes_count` column. */
  lemma PopularityIsLikesCountDesc(q: seq<Receta>, likes: seq<Like>)
    ensures PorPopularidad(q, likes) == OrdenarPor(q, Some("likes_count"), Desc, likes)
  {
  }
}
