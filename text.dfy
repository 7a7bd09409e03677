/**
 * String helpers with the meaning PHP and PostgreSQL give them in the
 * backend: PHP's truthiness of a nullable string, `str_starts_with`,
 * `ltrim`/`rtrim` of one character, and `ILIKE '%term%'` read as a
 * case-insensitive substring test.
 */
module Text {
  import opened Wrappers

  /** PHP's `!$s` for a `?string`: null, "" and "0" are falsy. */
  predicate Falsy(s: Option<string>)
  {
    s.None? || s.value == "" || s.value == "0"
  }

  /** `str_starts_with($s, $prefix)`. */
  predicate StartsWith(s: string, prefix: string)
  {
    prefix <= s
  }

  /**
   * Lower-case folding of one character: ASCII and the Latin-1 capitals
   * (which cover the Spanish letters Á, É, Í, Ñ, Ó, Ú, Ü); every other
   * character is left as it is.
   */
  function LowerChar(c: char): (r: char)
    ensures 'A' <= c <= 'Z' ==> 'a' <= r <= 'z'
    ensures 'a' <= c <= 'z' ==> r == c
  {
    if 'A' <= c <= 'Z' || ('À' <= c <= 'Þ' && c != '×') then
      (c as int + 32) as char
    else
      c
  }

  /** Lower-case folding of a string, character by character. */
  function Lower(s: string): (r: string)
    ensures |r| == |s|
  {
    seq(|s|, i requires 0 <= i < |s| => LowerChar(s[i]))
  }

  /** `needle` occurs somewhere in `hay` as a contiguous piece. */
  predicate IsInfix(needle: string, hay: string)
    decreases |hay|
  {
    needle <= hay || (hay != [] && IsInfix(needle, hay[1..]))
  }

  /** `hay ILIKE '%needle%'`, with `%` and `_` in `needle` read literally. */
  predicate ContainsCI(hay: string, needle: string)
  {
    IsInfix(Lower(needle), Lower(hay))
  }

  /** `needle` sits in `hay` starting at position `k`. */
  predicate OccursAt(needle: string, hay: string, k: nat)
  {
    k + |needle| <= |hay| && hay[k..k + |needle|] == needle
  }

  /** An infix is a slice of the string it occurs in. */
  lemma {:induction false} InfixIsSlice(needle: string, hay: string)
    requires IsInfix(needle, hay)
    ensures exists k: nat :: OccursAt(needle, hay, k)
    decreases |hay|
  {
    if needle <= hay {
      assert OccursAt(needle, hay, 0);
    } else {
      InfixIsSlice(needle, hay[1..]);
      var k: nat :| OccursAt(needle, hay[1..], k);
      assert hay[k + 1..k + 1 + |needle|] == hay[1..][k..k + |needle|];
      assert OccursAt(needle, hay, k + 1);
    }
  }

  /** Every slice of a string is an infix of it. */
  lemma {:induction false} SliceIsInfix(needle: string, hay: string, k: nat)
    requires OccursAt(needle, hay, k)
    ensures IsInfix(needle, hay)
    decreases k
  {
    if k == 0 {
      assert needle <= hay;
    } else {
      assert hay[1..][k - 1..k - 1 + |needle|] == hay[k..k + |needle|];
      SliceIsInfix(needle, hay[1..], k - 1);
    }
  }

  /**
   * The search is a literal case-insensitive substring test: the folded term
   * sits at some position of the folded text.
   */
  lemma ContainsIffOccurs(hay: string, needle: string)
    ensures ContainsCI(hay, needle) <==> exists k: nat :: OccursAt(Lower(needle), Lower(hay), k)
  {
    if ContainsCI(hay, needle) {
      InfixIsSlice(Lower(needle), Lower(hay));
    }
    if exists k: nat :: OccursAt(Lower(needle), Lower(hay), k) {
      var k: nat :| OccursAt(Lower(needle), Lower(hay), k);
      SliceIsInfix(Lower(needle), Lower(hay), k);
    }
  }

  /** The empty term occurs in every string. */
  lemma EmptyTermMatches(hay: string)
    ensures ContainsCI(hay, "")
  {
  }

  /** `ltrim($s, c)`: `s` without its leading run of `c`. */
  function LTrim(s: string, c: char): (r: string)
    ensures |r| <= |s| && r == s[|s| - |r|..]
    ensures r == [] || r[0] != c
    ensures forall i :: 0 <= i < |s| - |r| ==> s[i] == c
  {
    if s != [] && s[0] == c then LTrim(s[1..], c) else s
  }

  /** `rtrim($s, c)`: `s` without its trailing run of `c`. */
  function RTrim(s: string, c: char): (r: string)
    ensures |r| <= |s| && r == s[..|r|]
    ensures r == [] || r[|r| - 1] != c
    ensures forall i :: |r| <= i < |s| ==> s[i] == c
  {
    if s != [] && s[|s| - 1] == c then RTrim(s[..|s| - 1], c) else s
  }
}
