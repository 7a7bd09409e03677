/**
 * The rows of the backend's tables and the errors its handlers raise.
 * Identifiers are the tables' auto-increment keys; timestamps are integers
 * supplied by the caller (the clock is not part of the model).
 */
module Entities {
  import opened Wrappers

  /** The acting user: its id and whether it holds the `admin` role. */
  datatype User = User(id: nat, isAdmin: bool)

  datatype Receta = Receta(
    id: nat,
    userId: nat,
    titulo: string,
    descripcion: string,
    instrucciones: string,
    imagenUrl: Option<string>,   // stored path on the public disk, or an absolute URL
    publicada: bool,
    createdAt: int)

  datatype Ingrediente = Ingrediente(id: nat, recetaId: nat, nombre: string, cantidad: string, unidad: string)

  datatype Like = Like(id: nat, userId: nat, recetaId: nat, createdAt: int)

  datatype Comentario = Comentario(id: nat, recetaId: nat, userId: nat, texto: string, createdAt: int)

  /**
   * An uploaded file as the checks see it: its detected mime type, its size in
   * bytes, and the relative path the storage layer would give it.
   */
  datatype Upload = Upload(mimeType: string, size: nat, storedPath: string)

  datatype Error =
    | Forbidden        // a policy denied the action (403)
    | Invalid          // request validation failed (422)
    | Unmodifiable     // the recipe is published (DomainException)
    | ImageRejected    // the upload guard refused the file (DomainException)
    | UndefinedScope   // a query scope that the model does not define was called
    | NotFound         // route model binding found no row with the given key (404)

  /** A character PHP's `trim` removes by default: space, tab, newline, carriage return, NUL or vertical tab. */
  predicate TrimmedChar(c: char)
  {
    c == ' ' || c == '\t' || c == '\n' || c == '\r' || c == 0 as char || c == 11 as char
  }

  /** `trim($s) === ''`: the string is empty or made only of trimmed characters, which `required` refuses. */
  predicate Blank(s: string)
  {
    s == [] || (TrimmedChar(s[0]) && Blank(s[1..]))
  }

  /** A string is blank exactly when every one of its characters is one `trim` removes. */
  lemma {:induction false} BlankIff(s: string)
    ensures Blank(s) <==> forall k :: 0 <= k < |s| ==> TrimmedChar(s[k])
  {
    if s != [] {
      BlankIff(s[1..]);
      assert forall k :: 1 <= k < |s| ==> s[k] == s[1..][k - 1];
    }
  }

  /** `required|string|max:n` on an optional request field: present, not blank, at most `n` characters. */
  predicate RequiredMax(v: Option<string>, n: nat)
  {
    v.Some? && !Blank(v.value) && |v.value| <= n
  }

  /** `required|string` on an optional request field: present and not blank. */
  predicate Required(v: Option<string>)
  {
    v.Some? && !Blank(v.value)
  }

  /** `sometimes|required|string|max:n`: checked only when the field is sent. */
  predicate SometimesRequiredMax(v: Option<string>, n: nat)
  {
    v.None? || (!Blank(v.value) && |v.value| <= n)
  }

  /** `sometimes|required|string`: checked only when the field is sent. */
  predicate SometimesRequired(v: Option<string>)
  {
    v.None? || !Blank(v.value)
  }

  /** The field's new value: the sent one, or the old one when it was not sent. */
  function Patched(v: Option<string>, current: string): string
  {
    if v.Some? then v.value else current
  }
}
