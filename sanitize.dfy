/**
 * sanitizeFilename: every rune outside the safe set [a-zA-Z0-9._-] is replaced by '_'
 * (a regular-expression replacement of each single unsafe rune).
 */
module Sanitize {

  /** The safe set [a-zA-Z0-9._-]. */
  predicate IsSafeChar(c: char)
  {
    ('a' <= c <= 'z') || ('A' <= c <= 'Z') || ('0' <= c <= '9') || c == '.' || c == '_' || c == '-'
  }

  predicate AllSafe(s: string)
  {
    forall i :: 0 <= i < |s| ==> IsSafeChar(s[i])
  }

  /** Safe runes stay where they are; every other rune becomes '_'. */
  function SanitizeFilename(name: string): (r: string)
    ensures |r| == |name|
  {
    if name == [] then []
    else [if IsSafeChar(name[0]) then name[0] else '_'] + SanitizeFilename(name[1..])
  }

  /** Safe runes stay where they are; every other rune becomes '_'. */
  lemma {:induction false} SanitizePointwise(name: string)
    ensures forall i :: 0 <= i < |name| && IsSafeChar(name[i]) ==> SanitizeFilename(name)[i] == name[i]
    ensures forall i :: 0 <= i < |name| && !IsSafeChar(name[i]) ==> SanitizeFilename(name)[i] == '_'
    decreases |name|
  {
    if name != [] {
      SanitizePointwise(name[1..]);
    }
  }

  /** The result only holds safe runes, so it holds no path separator. */
  lemma SanitizedIsSafe(name: string)
    ensures AllSafe(SanitizeFilename(name))
    ensures forall i :: 0 <= i < |name| ==> SanitizeFilename(name)[i] != '/'
  {
    SanitizePointwise(name);
  }

  /** A name made of safe runes only is left as it is; in particular sanitizing is idempotent. */
  lemma SanitizeKeepsSafeNames(name: string)
    requires AllSafe(name)
    ensures SanitizeFilename(name) == name
  {
    SanitizePointwise(name);
  }

  lemma SanitizeIdempotent(name: string)
    ensures SanitizeFilename(SanitizeFilename(name)) == SanitizeFilename(name)
  {
    SanitizedIsSafe(name);
    SanitizeKeepsSafeNames(SanitizeFilename(name));
  }

  /** The result is empty exactly when the input is. */
  lemma SanitizeEmptyIff(name: string)
    ensures SanitizeFilename(name) == [] <==> name == []
  {
  }
}
