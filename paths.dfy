/** Path normalisation (`normalizePath` in matchers.go). */
module Paths {

  /** A path in normal form: empty, or starting with a slash. */
  predicate IsNormalized(p: string) {
    p == [] || p[0] == '/'
  }

  /** A path that normalisation changes: non-empty and not starting with a slash. */
  predicate NeedsSlash(p: string) {
    p != [] && p[0] != '/'
  }

  /** Prepends a slash to a non-empty path that lacks one; returns any other path unchanged. */
  function NormalizePath(p: string): (r: string)
    ensures IsNormalized(r)
    ensures r == [] <==> p == []
    ensures |r| == |p| || |r| == |p| + 1
    ensures r[|r| - |p|..] == p
  {
    if |p| > 0 && p[0] != '/' then "/" + p else p
  }

  /** The three cases: empty stays empty, a missing slash is added, a leading slash is kept. */
  lemma NormalizePathCases(p: string)
    ensures p == [] ==> NormalizePath(p) == []
    ensures NeedsSlash(p) ==> NormalizePath(p) == "/" + p
    ensures p != [] && p[0] == '/' ==> NormalizePath(p) == p
  {
  }

  /** Normalising twice is normalising once. */
  lemma NormalizePathIdempotent(p: string)
    ensures NormalizePath(NormalizePath(p)) == NormalizePath(p)
  {
  }

  /** The fixed points of normalisation are exactly the normalised paths. */
  lemma NormalizePathFixedPoints(p: string)
    ensures NormalizePath(p) == p <==> IsNormalized(p)
  {
  }

  /** NormalizePath(p) is the unique shortest normalised string that ends with p. */
  lemma NormalizePathIsShortestNormalizedExtension(p: string, s: string)
    requires IsNormalized(s) && |p| <= |s| && s[|s| - |p|..] == p
    ensures |NormalizePath(p)| <= |s|
    ensures |s| == |NormalizePath(p)| ==> s == NormalizePath(p)
  {
  }

  /** Two paths normalise to the same path exactly when they are equal or
      one is the other with the missing slash added. */
  lemma NormalizePathSameResult(p: string, q: string)
    ensures NormalizePath(p) == NormalizePath(q) <==>
      p == q || (NeedsSlash(q) && p == "/" + q) || (NeedsSlash(p) && q == "/" + p)
  {
  }

  /** Only one slash is ever added: a path with repeated leading slashes keeps them. */
  lemma NormalizePathKeepsRepeatedSlashes()
    ensures NormalizePath("//a") == "//a"
    ensures NormalizePath("a") == "/a"
    ensures NormalizePath("/a") == "/a"
    ensures NormalizePath("") == ""
  {
  }
}
