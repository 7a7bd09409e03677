/**
 * The recipe service: the publication guard, the upload checks, and the
 * composition of the listing's filters and ordering out of the model's
 * scopes.
 */
module RecetaService {
  import opened Wrappers
  import opened Entities
  import opened Text
  import opened Seqs
  import opened Sorting
  import opened RecetaModel

  /** `assertCanBeModified`: a published recipe may not be changed. */
  function AssertCanBeModified(r: Receta): (o: Outcome<Error>)
    ensures o.Fail? <==> r.publicada
    ensures o.Fail? ==> o.error == Unmodifiable
  {
    if r.publicada then Fail(Unmodifiable) else Pass
  }

  const ImageMimeTypes: set<string> := {"image/jpeg", "image/png", "image/jpg"}

  /** 2 MiB. */
  const MaxImageBytes: nat := 2 * 1024 * 1024

  /** The checks an upload must pass: an accepted mime type and at most 2 MiB. */
  predicate ImageAcceptable(img: Upload)
  {
    img.mimeType in ImageMimeTypes && img.size <= MaxImageBytes
  }

  /**
   * `handleImageUpload`: refuses a file of another mime type or larger than
   * 2 MiB; otherwise yields the path the file is stored under.
   */
  function HandleImageUpload(img: Upload): (r: Result<string, Error>)
    ensures r.Ok? <==> img.mimeType in {"image/jpeg", "image/png", "image/jpg"} && img.size <= 2097152
    ensures r.Ok? ==> r.value == img.storedPath
    ensures r.Err? ==> r.error == ImageRejected
  {
    if img.mimeType !in ImageMimeTypes then Err(ImageRejected)
    else if img.size > MaxImageBytes then Err(ImageRejected)
    else Ok(img.storedPath)
  }

  /** The size limit is inclusive: exactly 2 MiB passes and one byte more does not. */
  lemma ImageSizeLimitInclusive(mime: string, path: string)
    requires mime in ImageMimeTypes
    ensures HandleImageUpload(Upload(mime, 2097152, path)).Ok?
    ensures HandleImageUpload(Upload(mime, 2097153, path)).Err?
  {
  }

  /** `deleteImage`: removes a truthy stored path from the public disk. */
  function DeleteImage(files: set<string>, imagenUrl: Option<string>): (r: set<string>)
    ensures r <= files
    ensures Falsy(imagenUrl) ==> r == files
    ensures !Falsy(imagenUrl) ==> r == files - {imagenUrl.value}
  {
    if !Falsy(imagenUrl) && imagenUrl.value in files then files - {imagenUrl.value} else files
  }

  /** The listing's query-string filters, `null` when absent. */
  datatype Filters = Filters(q: Option<string>, ingrediente: Option<string>, minLikes: Option<string>)

  /** The condition a recipe must meet to pass the present filters. */
  predicate PassesFilters(x: Receta, f: Filters, ingredientes: seq<Ingrediente>)
  {
    && (Falsy(f.q) || MatchesTermino(x, f.q.value))
    && (Falsy(f.ingrediente) || HasIngredienteMatching(ingredientes, x, f.ingrediente.value))
  }

  function FiltersCond(f: Filters, ingredientes: seq<Ingrediente>): Receta -> bool
  {
    (x: Receta) => PassesFilters(x, f, ingredientes)
  }

  /** The search, then the ingredient match, each only when its key is set. */
  function Scoped(q: seq<Receta>, f: Filters, ingredientes: seq<Ingrediente>): seq<Receta>
  {
    var afterQ := if f.q.Some? then Buscar(q, f.q) else q;
    if f.ingrediente.Some? then ConIngrediente(afterQ, ingredientes, f.ingrediente) else afterQ
  }

  /**
   * `applyFilters`: the scopes of the present filters. A set `min_likes`
   * calls a scope the model does not define, so the request fails.
   */
  function ApplyFilters(q: seq<Receta>, f: Filters, ingredientes: seq<Ingrediente>): (r: Result<seq<Receta>, Error>)
    ensures r.Err? <==> f.minLikes.Some?
    ensures r.Err? ==> r.error == UndefinedScope
    ensures r.Ok? ==> forall x :: x in r.value <==> x in q && PassesFilters(x, f, ingredientes)
    ensures r.Ok? ==> IsSubsequence(r.value, q)
  {
    if f.minLikes.Some? then
      Err(UndefinedScope)
    else
      FiltersAsOneWhere(q, f, ingredientes);
      WhereIsSubsequence(q, FiltersCond(f, ingredientes));
      Ok(Scoped(q, f, ingredientes))
  }

  /** Both scopes together are one `where` with the conjunction of their conditions. */
  lemma FiltersAsOneWhere(q: seq<Receta>, f: Filters, ingredientes: seq<Ingrediente>)
    ensures Scoped(q, f, ingredientes) == Where(q, FiltersCond(f, ingredientes))
  {
    var all := FiltersCond(f, ingredientes);
    if Falsy(f.q) && Falsy(f.ingrediente) {
      WhereKeepsAll(q, all);
    } else if Falsy(f.ingrediente) {
      OnlySearch(q, f, ingredientes);
    } else if Falsy(f.q) {
      OnlyIngrediente(q, f, ingredientes);
    } else {
      BothFilters(q, f, ingredientes);
    }
  }

  lemma OnlySearch(q: seq<Receta>, f: Filters, ingredientes: seq<Ingrediente>)
    requires !Falsy(f.q) && Falsy(f.ingrediente)
    ensures Scoped(q, f, ingredientes) == Where(q, FiltersCond(f, ingredientes))
  {
    WhereAgrees(q, TerminoFilter(f.q.value), FiltersCond(f, ingredientes));
  }

  lemma OnlyIngrediente(q: seq<Receta>, f: Filters, ingredientes: seq<Ingrediente>)
    requires Falsy(f.q) && !Falsy(f.ingrediente)
    ensures Scoped(q, f, ingredientes) == Where(q, FiltersCond(f, ingredientes))
  {
    WhereAgrees(q, IngredienteFilter(ingredientes, f.ingrediente.value), FiltersCond(f, ingredientes));
  }

  lemma BothFilters(q: seq<Receta>, f: Filters, ingredientes: seq<Ingrediente>)
    requires !Falsy(f.q) && !Falsy(f.ingrediente)
    ensures Scoped(q, f, ingredientes) == Where(q, FiltersCond(f, ingredientes))
  {
    var p1 := TerminoFilter(f.q.value);
    var p2 := IngredienteFilter(ingredientes, f.ingrediente.value);
    WhereConjoins(q, p1, p2);
    WhereAgrees(q, x => p1(x) && p2(x), FiltersCond(f, ingredientes));
  }

  /** With no filter set the query is returned as it is. */
  lemma NoFiltersKeepAll(q: seq<Receta>, ingredientes: seq<Ingrediente>)
    ensures ApplyFilters(q, Filters(None, None, None), ingredientes) == Ok(q)
  {
    FiltersAsOneWhere(q, Filters(None, None, None), ingredientes);
    WhereKeepsAll(q, FiltersCond(Filters(None, None, None), ingredientes));
  }

  /** The search and the ingredient match may be applied in either order. */
  lemma {:induction false} FiltersCommute(q: seq<Receta>, ingredientes: seq<Ingrediente>, termino: Option<string>, ingrediente: Option<string>)
    ensures Buscar(ConIngrediente(q, ingredientes, ingrediente), termino) == ConIngrediente(Buscar(q, termino), ingredientes, ingrediente)
  {
    if !Falsy(termino) && !Falsy(ingrediente) {
      WhereCommutes(q, TerminoFilter(termino.value), IngredienteFilter(ingredientes, ingrediente.value));
    }
  }

  /** `asc`, or `desc` when the sort parameter starts with a dash. */
  function SortDirection(sort: string): (d: Direction)
    ensures d == Desc <==> StartsWith(sort, "-")
  {
    if StartsWith(sort, "-") then Desc else Asc
  }

  /** `ltrim($sort, '-')`: the parameter without its leading dashes. */
  function SortField(sort: string): (f: string)
    ensures f == [] || f[0] != '-'
    ensures |f| <= |sort| && sort == seq(|sort| - |f|, _ => '-') + f
  {
    var f := LTrim(sort, '-');
    var n := |sort| - |f|;
    assert sort[..n] == seq(n, _ => '-') by {
      forall i | 0 <= i < n ensures sort[..n][i] == '-' {
        assert sort[i] == '-';
      }
    }
    assert sort == sort[..n] + sort[n..];
    f
  }

  /**
   * `applySort`: `popular` and `-popular` both mean the popularity order;
   * another truthy value is split into direction and column and handed to
   * `ordenarPor`; a falsy one leaves the order as it is.
   */
  function ApplySort(q: seq<Receta>, sort: Option<string>, likes: seq<Like>): (r: seq<Receta>)
    ensures multiset(r) == multiset(q)
    ensures Falsy(sort) ==> r == q
    ensures sort == Some("popular") || sort == Some("-popular") ==> r == PorPopularidad(q, likes)
    ensures !Falsy(sort) && sort.value != "popular" && sort.value != "-popular" ==>
      r == OrdenarPor(q, Some(SortField(sort.value)), SortDirection(sort.value), likes)
  {
    if sort == Some("popular") || sort == Some("-popular") then
      PorPopularidad(q, likes)
    else if !Falsy(sort) then
      OrdenarPor(q, Some(SortField(sort.value)), SortDirection(sort.value), likes)
    else
      q
  }

  /** Either spelling of `popular` lists the most-liked recipes first. */
  lemma PopularIsAlwaysDescending(q: seq<Receta>, likes: seq<Like>, sort: string)
    requires sort == "popular" || sort == "-popular"
    ensures ApplySort(q, Some(sort), likes) == ApplySort(q, Some("popular"), likes)
    ensures var r := ApplySort(q, Some(sort), likes);
      forall i, j :: 0 <= i < j < |r| ==> LikesCount(likes, r[i].id) >= LikesCount(likes, r[j].id)
  {
  }

  /** `-titulo` orders by title, last in alphabetical order first. */
  lemma DashTituloIsDescending(q: seq<Receta>, likes: seq<Like>)
    ensures var r := ApplySort(q, Some("-titulo"), likes);
      forall i, j :: 0 <= i < j < |r| ==> LexLe(r[j].titulo, r[i].titulo)
  {
    assert LTrim("titulo", '-') == "titulo";
    assert SortField("-titulo") == "titulo";
  }

  /** A sort whose column, once the dashes are stripped, is not whitelisted leaves the order alone. */
  lemma UnlistedSortIsIgnored(q: seq<Receta>, likes: seq<Like>, sort: string)
    requires !Falsy(Some(sort)) && sort != "popular" && sort != "-popular"
    requires SortField(sort) !in CamposPermitidos
    ensures ApplySort(q, Some(sort), likes) == q
  {
  }

  /** Stripping a run of `c` from the front of `p`, which does not start with `c`, gives `p` back. */
  lemma {:induction false} LTrimRun(k: nat, c: char, p: string)
    requires p == [] || p[0] != c
    ensures LTrim(seq(k, _ => c) + p, c) == p
  {
    var s := seq(k, _ => c) + p;
    if k > 0 {
      assert s[0] == c;
      assert s[1..] == seq(k - 1, _ => c) + p;
      LTrimRun(k - 1, c, p);
    } else {
      assert s == p;
    }
  }

  /** Two or more dashes before `popular` do not spell `popular`: the column `popular` is not whitelisted, so nothing is reordered. */
  lemma ManyDashPopularIsIgnored(q: seq<Receta>, likes: seq<Like>, k: nat)
    requires k >= 2
    ensures ApplySort(q, Some(seq(k, _ => '-') + "popular"), likes) == q
  {
    var sort := seq(k, _ => '-') + "popular";
    assert sort != "popular" && sort != "-popular" && sort != "" && sort != "0" by {
      assert |sort| == k + 7;
    }
    assert SortField(sort) == "popular" by {
      LTrimRun(k, '-', "popular");
    }
    assert SortField(sort) !in CamposPermitidos by {
      assert |"popular"| == 7 && |"titulo"| == 6 && |"created_at"| == 10 && |"likes_count"| == 11;
    }
    UnlistedSortIsIgnored(q, likes, sort);
  }

  /** `--popular` in particular leaves the order unchanged. */
  lemma DoubleDashPopularIsIgnored(q: seq<Receta>, likes: seq<Like>)
    ensures ApplySort(q, Some("--popular"), likes) == q
  {
    assert "--popular" == seq(2, _ => '-') + "popular";
    ManyDashPopularIsIgnored(q, likes, 2);
  }
}
