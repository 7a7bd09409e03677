# Recipe API core in Dafny

A model of the decision and collection logic of a recipe-sharing REST
backend written with Laravel. Users publish recipes (`recetas`) with
ingredients (`ingredientes`), like them (`likes`) and comment on them
(`comentarios`). The model covers:

- the listing engine: text search over title and description, ingredient
  search, a whitelisted sort field with direction, the `popular` ordering
  and the page-size clamp;
- the like toggle and the like counts;
- the comment and ingredient policies, plus the owner-or-admin recipe
  policy and the publication guard;
- the write endpoints of the recipe, comment and ingredient controllers,
  including the cascade when a recipe is deleted;
- the derived fields: the full image URL and the recipe's JSON projection.

Layout, one module per source concern:

- `Wrappers`, `Seqs`, `Text`, `Sorting`: `Option`/`Result`, and the relational
  queries as operations on sequences.
  - `Where` is a `where` clause, `First` is `first()`, `Replace` is an update.
  - `Text` gives PHP truthiness, case-insensitive substring search and `ltrim`/`rtrim`.
  - `Sorting` is a sort by key in either direction.
- `Entities`: the table rows, the request-validation rules and the error kinds.
- `RecetaModel`: the `Receta` model's relations, accessors and query scopes.
- `RecetaService`: the publication guard, the upload checks, image deletion,
  `applyFilters` and `applySort`.
- `RecetaPolicy`, `ComentarioPolicy`, `IngredientePolicy`: the authorization predicates.
- `LikeToggle`: the toggle as a function of the likes table, and its laws.
- `RecetaResource`: `toArray`.
- `Tables`: the database invariant (`Consistent`) and how each write keeps it.
  - Keys ascend and are below the next key.
  - (user, recipe) like pairs are unique.
  - Every ingredient, like and comment points at an existing recipe.
- `Queries`: key lookups, the listing pipeline, the page size, the newest-first
  comment order and each endpoint's validation rules.
- `Api`: class `Store`, which holds the four tables, the public disk's files and
  the next key.
  - Each controller action is a method. A refused request returns an `Error`
    and leaves the store unchanged.

Time (`now`), the acting user, the uploaded file's detected mime type, size
and storage path, and the application's base URL are parameters or constants.

## Model

| member | source | states |
|---|---|---|
| RecetaService.AssertCanBeModified | app/Services/RecetaService.php:16-24 | fails, with the unmodifiable error, exactly when the recipe is published |
| RecetaService.HandleImageUpload | app/Services/RecetaService.php:33-46 | accepted iff the mime type is image/jpeg, image/png or image/jpg and the size is at most 2·1024·1024 bytes; an accepted file yields its stored path |
| RecetaService.ImageSizeLimitInclusive | app/Services/RecetaService.php:40-42 | exactly 2097152 bytes passes the size check, 2097153 bytes fails it |
| RecetaService.DeleteImage | app/Services/RecetaService.php:54-59 | a falsy path leaves the disk alone; otherwise only that path is removed; nothing is ever added |
| RecetaService.ApplyFilters | app/Services/RecetaService.php:69-87 | a set `min_likes` fails, because its scope does not exist; otherwise a recipe is kept iff it passes every present filter, and the result is an order-preserving subsequence of the input |
| RecetaService.FiltersAsOneWhere | app/Services/RecetaService.php:72-79 | applying the search then the ingredient scope equals one `where` with the conjunction of their conditions |
| RecetaService.NoFiltersKeepAll | app/Services/RecetaService.php:69-87 | with every filter null the query is unchanged |
| RecetaService.FiltersCommute | app/Models/Receta.php:113-150 | the text search and the ingredient search commute |
| RecetaService.SortDirection | app/Services/RecetaService.php:103 | descending iff the sort string starts with `-` |
| RecetaService.SortField | app/Services/RecetaService.php:104 | the field is the sort string with every leading `-` removed: it does not start with `-`, and the sort string is a run of dashes followed by it |
| RecetaService.ApplySort | app/Services/RecetaService.php:96-109 | always a permutation of its input; a null or falsy sort is the identity; `popular`/`-popular` is the popularity order; any other sort is `ordenarPor` with the stripped field and the prefix's direction |
| RecetaService.PopularIsAlwaysDescending | app/Services/RecetaService.php:98-100 | `popular` and `-popular` give the same order, with like counts non-increasing |
| RecetaService.DashTituloIsDescending | app/Services/RecetaService.php:101-106 | `-titulo` orders titles descending |
| RecetaService.UnlistedSortIsIgnored | app/Services/RecetaService.php:101-106 | a truthy sort other than `popular`/`-popular` whose stripped column is not whitelisted leaves the order unchanged |
| RecetaService.LTrimRun | app/Services/RecetaService.php:104 | stripping any run of the trimmed character from the front of a string that does not start with it gives that string back |
| RecetaService.ManyDashPopularIsIgnored | app/Services/RecetaService.php:101-106 | two or more dashes before `popular` strip to the column `popular`, which is not whitelisted, so the order is unchanged |
| RecetaService.DoubleDashPopularIsIgnored | app/Services/RecetaService.php:101-106 | `--popular` becomes field `popular`, which is not whitelisted, so the order is unchanged |
| RecetaModel.LikesCount | app/Models/Receta.php:58-61 | the number of like rows of the recipe; zero iff no like row points at it |
| RecetaModel.IsLikedBy | app/Models/Receta.php:66-73 | false without a user; otherwise true iff a like of this recipe has that user's id |
| RecetaModel.LikedIsCounted | app/Models/Receta.php:58-73 | a recipe liked by someone has a positive like count |
| RecetaModel.ImagenUrlCompleta | app/Models/Receta.php:87-100 | null iff the stored path is falsy; a value starting with `http` passes unchanged; otherwise the URL starts with the base URL + `storage/` and equals base URL + `storage/` + path when the path does not end in `/` (`asset()` trims trailing slashes, so other paths lose them) |
| RecetaModel.ImagenUrlCompletaIdempotent | app/Models/Receta.php:94-99 | the result always starts with `http`, so applying the accessor again changes nothing |
| RecetaModel.Buscar | app/Models/Receta.php:140-150 | a falsy term is the identity; otherwise it keeps exactly the recipes whose title or description contains the term case-insensitively, as a subsequence of the query |
| RecetaModel.ConIngrediente | app/Models/Receta.php:113-122 | a falsy term is the identity; otherwise it keeps exactly the recipes with an ingredient whose name contains the term case-insensitively, as a subsequence of the query |
| RecetaModel.NoIngredientesNeverMatch | app/Models/Receta.php:119-121 | a recipe without ingredients never passes a non-empty ingredient search |
| RecetaModel.PorPopularidad | app/Models/Receta.php:129-133 | a permutation of its input with like counts non-increasing |
| RecetaModel.UnlikedComeLast | app/Models/Receta.php:129-133 | after a recipe with no likes, every recipe has no likes |
| RecetaModel.OrdenarPor | app/Models/Receta.php:157-175 | a permutation; a falsy or non-whitelisted field is the identity; otherwise sorted by `titulo`, `created_at` or `likes_count` in the given direction |
| RecetaModel.PopularityIsLikesCountDesc | app/Models/Receta.php:129-133 | the popularity scope is the same order as `ordenarPor('likes_count', 'desc')` |
| Text.LTrim | app/Services/RecetaService.php:104 | `ltrim`: the result is a suffix that does not start with the character, and only that character was removed |
| Text.ContainsIffOccurs | app/Models/Receta.php:147-148 | the ILIKE match holds iff the lower-cased term occurs at some position of the lower-cased text |
| Text.EmptyTermMatches | app/Models/Receta.php:120 | the empty term occurs in every text |
| Sorting.Sort | app/Models/Receta.php:174 | `orderBy`: the output is sorted by the key in the direction and is a permutation of the input |
| LikeToggle.ExistingLike | app/Http/Controllers/Api/LikeController.php:53-55 | finds a row iff the pair (user, recipe) has a like, and the row found is of that pair |
| LikeToggle.ToggleFlips | app/Http/Controllers/Api/LikeController.php:57-75 | after the toggle the pair is liked iff it was not liked before |
| LikeToggle.ToggleKeepsOtherPairs | app/Http/Controllers/Api/LikeController.php:53-59 | every other (user, recipe) pair keeps its like state |
| LikeToggle.ToggleCounts | app/Http/Controllers/Api/LikeController.php:62-83 | the target recipe's count moves by −1 on removal and +1 on creation; every other recipe's count is unchanged |
| LikeToggle.ToggleKeepsWellFormed | app/Http/Controllers/Api/LikeController.php:53-75 | the toggle keeps pairs unique and ids ascending and below the next id |
| LikeToggle.ToggleTwiceRestores | app/Http/Controllers/Api/LikeController.php:48-85 | two toggles restore every pair's like state and every recipe's count, and from an unliked pair they restore the table itself |
| RecetaPolicy.OnlyOwnerOrAdmin | tests/Feature/IngredienteTest.php:44-122 | (assumed policy) updating and deleting a recipe are allowed iff the user is an admin or the recipe's owner, and the two rights agree |
| ComentarioPolicy.OnlyAuthorOrAdmin | app/Policies/ComentarioPolicy.php:40-60 | update and delete are allowed iff the user is an admin or the comment's author |
| ComentarioPolicy.UpdateAgreesWithDelete | app/Policies/ComentarioPolicy.php:40-60 | update and delete give the same answer for every user and comment |
| ComentarioPolicy.FixedAbilities | app/Policies/ComentarioPolicy.php:14-34 | create is always allowed; viewAny, view, restore and forceDelete never are |
| IngredientePolicy.OnlyOwnerOrAdmin | app/Policies/IngredientePolicy.php:41-61 | update and delete are allowed iff the user is an admin or owns the ingredient's recipe |
| IngredientePolicy.IgnoresIngredientFields | app/Policies/IngredientePolicy.php:47-60 | the decision does not depend on any field of the ingredient itself |
| IngredientePolicy.AgreesWithRecetaPolicy | app/Http/Controllers/Api/IngredienteController.php:28-57 | the ingredient's update/delete right equals the update/delete right on its recipe |
| IngredientePolicy.FixedAbilities | app/Policies/IngredientePolicy.php:14-35 | create is always allowed; viewAny, view, restore and forceDelete never are |
| RecetaResource.ToArray | app/Http/Resources/RecetaResource.php:16-36 | the columns are copied; `imagen_url` is the full URL (null iff no image); `likes_count` is the live count; `liked_by_user` is present iff there is a user and then tells whether that user liked the recipe; the collections appear iff loaded and hold exactly the recipe's rows; `comentarios_count` appears iff counted |
| RecetaResource.PayloadFollowsToggle | app/Http/Resources/RecetaResource.php:28-32 | after the viewer toggles, the viewer's `liked_by_user` flips and `likes_count` moves by one in the matching direction |
| Queries.FindReceta | app/Http/Controllers/Api/RecetaController.php:237 | the lookup by key finds a recipe iff the key exists, and the recipe found has that key |
| Queries.PerPage | app/Http/Controllers/Api/RecetaController.php:108 | at most 50; 10 when `per_page` is absent; otherwise the requested value when it is at most 50 |
| Queries.Listing | app/Http/Controllers/Api/RecetaController.php:92-102 | fails iff `min_likes` is set; otherwise exactly `applySort` of the filtered recipes, so a permutation of them: in key order when there is no sort (the model's choice, see Left out), with like counts non-increasing for `popular`, and ordered by the named column for a whitelisted sort |
| Queries.ListingFollowsSortColumn | tests/Feature/RecetaFiltrosAvanzadosTest.php:257-300 | a sort naming `titulo`, `created_at` or `likes_count` lists the filtered recipes ordered by that column, ascending without a leading dash and descending with one |
| Queries.ComentarioRulesIff | app/Http/Controllers/Api/ComentarioController.php:95-97 | the rules `required`, `string` and `max:1000` accept `texto` iff it is sent, has at most 1000 characters and keeps a character after `trim` |
| Queries.WhitespaceIsRejected | app/Http/Controllers/Api/IngredienteController.php:30-34 | a run of spaces is refused as a comment, as any of the three ingredient fields on creation and as a sent field on update |
| Queries.UnfilteredListingShowsAll | app/Http/Controllers/Api/RecetaController.php:92-102 | without filters every recipe is listed, whatever the sort |
| Queries.Latest | app/Http/Controllers/Api/ComentarioController.php:49 | `latest()`: a permutation with `created_at` non-increasing |
| Api.Store.constructor | database/migrations/2026_01_27_120000_create_ingredientes_table.php:14-21 | the empty database satisfies the invariant, and keys start at 1 |
| Api.Store.ToggleLike | app/Http/Controllers/Api/LikeController.php:48-85 | 404 for an unknown recipe; otherwise the likes table becomes the toggle of the pair; `liked` is the new state and the negation of the old; `likes_count` is the new count, one more or one less than before; status 201 on creation and 200 on removal; other tables unchanged; invariant kept |
| Api.Store.LikesCountOf | app/Http/Controllers/Api/LikeController.php:112-117 | 404 for an unknown recipe; otherwise the number of the recipe's likes |
| Api.Store.LikesIndex | app/Http/Controllers/Api/LikeController.php:154-168 | 404 for an unknown recipe; otherwise one row per like of the recipe, in key order (the model's choice), and `likes_count` equals the list's length |
| Api.Store.RecetasIndex | app/Http/Controllers/Api/RecetaController.php:90-112 | fails iff `min_likes` is set; otherwise the serialized listing, row by row, with the clamped page size |
| Api.Store.RecetaStore | app/Http/Controllers/Api/RecetaController.php:158-182 | 422 unless `titulo` is non-blank (keeps a character after `trim`) and at most 200 characters, `descripcion` and `instrucciones` are present and non-blank, and any image is acceptable; otherwise one unpublished recipe is appended under the next key, owned by the actor, with the stored image path or null; the image file is added to the disk |
| Api.Store.RecetaShow | app/Http/Controllers/Api/RecetaController.php:237-244 | 404 for an unknown recipe; otherwise its projection with ingredients, comments and comment count loaded |
| Api.Store.RecetaUpdate | app/Http/Controllers/Api/RecetaController.php:293-326 | 404, then 403 unless owner or admin, then the publication error for a published recipe, then 422; on success only the sent fields change; the image changes only when one is sent, and then the old file is deleted and the new one kept; key, owner, publication flag and creation time are kept; only that row is rewritten |
| Api.Store.SaveRecetaUpdate | app/Http/Controllers/Api/RecetaController.php:314-323 | on an accepted update the old image is deleted and the upload stored when one was sent, the row is rewritten with each sent field and the rest kept, and the tables stay consistent |
| Api.Store.RecetaDestroy | app/Http/Controllers/Api/RecetaController.php:362-379 | 404, then 403 unless owner or admin; on success the image file is deleted and the recipe, its ingredients, its likes and its comments are removed, and nothing else |
| Api.Store.DeleteCascade | database/migrations/2026_01_27_120000_create_ingredientes_table.php:16 | removes the recipe's row and every ingredient, like and comment that points at it, keeping the invariant |
| Api.Store.ComentariosIndex | app/Http/Controllers/Api/ComentarioController.php:46-52 | 404 for an unknown recipe; otherwise exactly the recipe's comments, newest first |
| Api.Store.ComentarioStore | app/Http/Controllers/Api/ComentarioController.php:92-110 | 404 for an unknown recipe; 422 unless the text is non-blank (keeps a character after `trim`) and at most 1000 characters; otherwise one comment by the actor on that recipe, with the text as sent, is appended; no ownership check |
| Api.Store.ComentarioShow | app/Http/Controllers/Api/ComentarioController.php:142-146 | the comment with that key, or 404 when there is none |
| Api.Store.ComentarioUpdate | app/Http/Controllers/Api/ComentarioController.php:183-196 | 404, then 403 unless author or admin, then 422; on success only the text of that comment changes |
| Api.Store.ComentarioDestroy | app/Http/Controllers/Api/ComentarioController.php:224-234 | 404, then 403 unless author or admin; on success exactly that comment is removed |
| Api.Store.IngredientesIndex | app/Http/Controllers/Api/IngredienteController.php:16-20 | 404 for an unknown recipe; otherwise exactly the recipe's ingredients, in key order (the model's choice) |
| Api.Store.IngredienteStore | app/Http/Controllers/Api/IngredienteController.php:25-41 | 404, then 403 without the update right on the recipe, then 422 unless `nombre` is non-blank (keeps a character after `trim`) and at most 100 characters and `cantidad` and `unidad` are non-blank and at most 50; otherwise one ingredient of that recipe is appended under the next key |
| Api.Store.IngredienteShow | app/Http/Controllers/Api/IngredienteController.php:46-49 | the ingredient with that key, or 404 when there is none |
| Api.Store.IngredienteUpdate | app/Http/Controllers/Api/IngredienteController.php:54-68 | 404, then 403 unless admin or owner of the ingredient's recipe, then 422; on success the sent fields change and the others keep their values; only that row is rewritten |
| Api.Store.IngredienteDestroy | app/Http/Controllers/Api/IngredienteController.php:73-81 | 404, then 403 unless admin or owner of the ingredient's recipe; on success exactly that ingredient is removed |
| Tables.ToggleConsistent | app/Http/Controllers/Api/LikeController.php:53-75 | a toggle on an existing recipe keeps the whole database invariant |
| Tables.DeleteChildlessRecetaConsistent | database/migrations/2026_01_27_120000_create_ingredientes_table.php:16 | once no row points at a recipe, deleting it keeps the invariant and removes exactly its key |

## Left out

- Authentication: the acting user is a parameter, and an unauthenticated request (401) is not modelled.
- File storage: `store`, `exists` and `delete` on the public disk are a set of stored paths. The stored path of an upload is an opaque parameter, and the base URL of `asset()` is the constant `http://localhost/`.
- Framework validators: `image`, `mimes:jpeg,png,jpg` and `max:2048` are modelled by the same mime and size checks as `handleImageUpload`. The image check therefore fails validation (422) and never reaches the upload guard. `string` is implied by the types.
- The `TrimStrings` and `ConvertEmptyStringsToNull` middleware are not modelled. A stored string keeps its surrounding whitespace, and an empty query parameter stays `""`, not null. The `required` rule's own refusal of blank strings (`trim($value) === ''`) is modelled.
- RecetaService.ApplyFilters: a set `min_likes` calls `conMinLikes`, which `Receta` does not define. The model returns an error rather than a working filter.
- ILIKE: the search is a literal substring. `%` and `_` in the term are not wildcards here, and `\`, the default escape character, is matched literally rather than escaping the next character. Case folding covers ASCII and the Latin-1 capitals only.
- Sorting.Sort: text keys compare by code point. The database collation and the order among equal keys are not modelled. Each sort is specified as sorted plus a permutation.
- Queries.PerPage: the `(int)` cast of the query string and the paginator's handling of zero or negative sizes are not modelled. Page offsets, totals and the slicing of the listing into pages are left out too.
- Api.Store.LikesIndex: the `user_name` column, read through the `user` relation, is left out because users are not a table here.
- Comment and ingredient serializers are field-for-field copies; the methods return the rows.
- Keys: one counter issues the keys of all tables. Only freshness and ascending order matter to the properties.
- Recipe creation stores `publicada` as false, since the model takes that as the column's default. The recipes migration is not part of this model.
- RecetaPolicy: its file is not part of this model. It is assumed to allow update and delete to the owner or an admin, as the feature tests expect.
- Queries.Listing, Api.Store.LikesIndex, Api.Store.IngredientesIndex: the listing without `sort`, the like index and the ingredient index have no `orderBy`, and the database gives their rows no order. The model returns them in primary-key order, an order the program does not promise; only which rows come back, and how many, is the program's promise.
- Concurrency between requests and database-level uniqueness constraints are not modelled. Unique like pairs are a store invariant instead.
- Routing is left out, together with the exception-to-status rendering, the OpenAPI annotations, the factories and the auth controller.
