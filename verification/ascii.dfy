/**
 ASCII character classes and the ASCII part of JavaScript's
 `String.prototype.toLowerCase` / `toUpperCase`. Characters outside ASCII are
 left unchanged by both mappings.
 */
module Ascii {

  predicate IsUpper(c: char) { 'A' <= c <= 'Z' }

  predicate IsLower(c: char) { 'a' <= c <= 'z' }

  predicate IsDigit(c: char) { '0' <= c <= '9' }

  /** The characters of the regular-expression class `[a-zA-Z0-9]`. */
  predicate IsAlnum(c: char) { IsUpper(c) || IsLower(c) || IsDigit(c) }

  /** Upper-case ASCII letters map to their lower-case partner; nothing else moves. */
  function ToLower(c: char): (r: char)
    ensures !IsUpper(r)
    ensures IsAlnum(r) <==> IsAlnum(c)
    ensures IsUpper(c) ==> IsLower(r) && (r as int) - (c as int) == 32
    ensures !IsUpper(c) ==> r == c
  {
    if IsUpper(c) then (c as int + 32) as char else c
  }

  /** Lower-case ASCII letters map to their upper-case partner; nothing else moves. */
  function ToUpper(c: char): (r: char)
    ensures !IsLower(r)
    ensures IsAlnum(r) <==> IsAlnum(c)
    ensures IsLower(c) ==> IsUpper(r) && (c as int) - (r as int) == 32
    ensures !IsLower(c) ==> r == c
  {
    if IsLower(c) then (c as int - 32) as char else c
  }

  /** Upper-casing a character never changes what it lower-cases to. */
  lemma LowerOfUpper(c: char)
    ensures ToLower(ToUpper(c)) == ToLower(c)
  {
  }

  /** `toLowerCase` on a whole string, character by character. */
  function LowerString(s: string): (r: string)
    ensures |r| == |s|
    ensures forall i :: 0 <= i < |s| ==> r[i] == ToLower(s[i])
  {
    if s == [] then [] else [ToLower(s[0])] + LowerString(s[1..])
  }

  /** `LowerString` distributes over concatenation. */
  lemma LowerStringAppend(a: string, b: string)
    ensures LowerString(a + b) == LowerString(a) + LowerString(b)
  {
  }
}
