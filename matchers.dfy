/**
 * The URL matchers of package `ant` (matchers.go): the Matcher capability,
 * its function adapter, and the hostname, glob-pattern and regexp matchers.
 *
 * The two foreign engines are parameters of the model:
 *  - `globMatch(str, pattern)` is `match.Match` of github.com/tidwall/match;
 *  - `compile(expr)` and `matchString(re, str)` are Go's `regexp.Compile` and
 *    `(*Regexp).MatchString`, with `R` the type of a compiled expression.
 */
module Matchers {
  import opened Wrappers
  import opened Urls
  import opened Paths

  /** A matcher decides, for one URL, whether it may be queued. Every
      constructor in matchers.go returns this function type, which is also
      how a bare predicate becomes a matcher. */
  type MatcherFunc = Url -> bool

  /** `MatcherFunc.Match`: forwards the call to the wrapped function. */
  function Match(m: MatcherFunc, u: Url): bool {
    m(u)
  }

  /** The string the pattern and regexp matchers judge: host, then normalised path.
      Scheme, query and fragment never take part. */
  function Subject(u: Url): (s: string)
    ensures |s| >= |u.host| && s[..|u.host|] == u.host
    ensures s == u.host <==> u.path == []
    ensures |s| > |u.host| ==> s[|u.host|] == '/'
    ensures |s| >= |u.path| && s[|s| - |u.path|..] == u.path
  {
    u.host + NormalizePath(u.path)
  }

  // ---------------------------------------------------------------------
  // The subject keeps the host/path boundary

  /** Index of the first slash in `s`, or `|s|` when there is none. */
  function FirstSlash(s: string): (i: nat)
    ensures i <= |s|
    ensures forall j :: 0 <= j < i ==> s[j] != '/'
    ensures i < |s| ==> s[i] == '/'
  {
    if s == [] || s[0] == '/' then 0 else 1 + FirstSlash(s[1..])
  }

  /** Splits a subject at its first slash into a slash-free host and a normalised path. */
  function SplitSubject(s: string): (parts: (string, string))
    ensures parts.0 + parts.1 == s
    ensures '/' !in parts.0
    ensures IsNormalized(parts.1)
  {
    var i := FirstSlash(s);
    (s[..i], s[i..])
  }

  /** For a host without a slash (every host `net/url` produces), the subject
      can be split back into the host and the normalised path. */
  lemma SubjectRoundTrip(u: Url)
    requires '/' !in u.host
    ensures SplitSubject(Subject(u)) == (u.host, NormalizePath(u.path))
  {
  }

  /** Two URLs with slash-free hosts have the same subject exactly when their
      hosts are equal and their paths normalise alike. */
  lemma SubjectInjective(u: Url, v: Url)
    requires '/' !in u.host && '/' !in v.host
    ensures Subject(u) == Subject(v) <==>
      u.host == v.host && NormalizePath(u.path) == NormalizePath(v.path)
  {
    if Subject(u) == Subject(v) {
      SubjectRoundTrip(u);
      SubjectRoundTrip(v);
    }
  }

  /** Without a slash-free host the boundary is lost: host "a/b" with an empty
      path and host "a" with path "/b" give the same subject. */
  lemma SubjectAmbiguousForHostWithSlash()
    ensures Subject(Url("http", "a/b", "", "", "")) == Subject(Url("http", "a", "/b", "", ""))
  {
  }

  // ---------------------------------------------------------------------
  // MatchHostname

  /** `MatchHostname(host)`: exact, case-sensitive equality on the URL's host. */
  function MatchHostname(host: string): MatcherFunc {
    (u: Url) => u.host == host
  }

  /** The hostname matcher accepts exactly the URLs whose host equals the configured one. */
  lemma HostnameExact(host: string, u: Url)
    ensures Match(MatchHostname(host), u) <==> u.host == host
  {
  }

  /** The hostname matcher looks at nothing but the host; two URLs it accepts share their host. */
  lemma HostnameDependsOnlyOnHost(host: string, u: Url, v: Url)
    ensures u.host == v.host ==> Match(MatchHostname(host), u) == Match(MatchHostname(host), v)
    ensures Match(MatchHostname(host), u) && Match(MatchHostname(host), v) ==> u.host == v.host
  {
  }

  /** No case folding and no port stripping. */
  lemma HostnameNoFoldingNoPortStripping(path: string)
    ensures !Match(MatchHostname("example.com"), Url("https", "Example.com", path, "", ""))
    ensures !Match(MatchHostname("example.com"), Url("https", "example.com:443", path, "", ""))
    ensures Match(MatchHostname(""), Url("file", "", path, "", ""))
  {
  }

  // ---------------------------------------------------------------------
  // MatchPattern

  /** `MatchPattern(pattern)`: the glob engine judges the subject against the pattern. */
  function MatchPattern(globMatch: (string, string) -> bool, pattern: string): MatcherFunc {
    (u: Url) => globMatch(Subject(u), pattern)
  }

  /** The pattern matcher hands the glob engine the subject as the string and the
      configured pattern as the pattern, in that order. */
  lemma PatternJudgesSubject(globMatch: (string, string) -> bool, pattern: string, u: Url)
    ensures Match(MatchPattern(globMatch, pattern), u) == globMatch(u.host + NormalizePath(u.path), pattern)
  {
    assert Subject(u) == u.host + NormalizePath(u.path);
  }

  /** The pattern matcher's decision depends only on the host and the normalised
      path: scheme, query and fragment, and a missing leading slash, change nothing. */
  lemma PatternDependsOnlyOnHostAndPath(globMatch: (string, string) -> bool, pattern: string, u: Url, v: Url)
    requires u.host == v.host && NormalizePath(u.path) == NormalizePath(v.path)
    ensures Match(MatchPattern(globMatch, pattern), u) == Match(MatchPattern(globMatch, pattern), v)
  {
    assert Subject(u) == Subject(v);
  }

  // ---------------------------------------------------------------------
  // MatchRegexp

  /** The panic `MatchRegexp` raises for an expression that does not compile. */
  datatype RegexpPanic = RegexpPanic(expr: string, reason: string)

  /** `MatchRegexp(expr)`: compiles once, at construction. A compile error is a
      failure with no matcher; otherwise the matcher searches the subject with
      the compiled expression. */
  function MatchRegexp<R>(compile: string -> Result<R, string>, matchString: (R, string) -> bool,
                          expr: string): (r: Result<MatcherFunc, RegexpPanic>)
    ensures r.Failure? <==> compile(expr).Failure?
    ensures compile(expr).Failure? ==> r.Failure? && r.error == RegexpPanic(expr, compile(expr).error)
  {
    match compile(expr)
    case Failure(reason) => Failure(RegexpPanic(expr, reason))
    case Success(re) => Success((u: Url) => matchString(re, Subject(u)))
  }

  /** A constructed regexp matcher forwards every URL's subject to the one
      expression compiled at construction. */
  lemma RegexpForwardsToCompiled<R>(compile: string -> Result<R, string>, matchString: (R, string) -> bool,
                                    expr: string, u: Url)
    requires compile(expr).Success?
    ensures MatchRegexp(compile, matchString, expr).Success?
    ensures Match(MatchRegexp(compile, matchString, expr).value, u) ==
      matchString(compile(expr).value, u.host + NormalizePath(u.path))
  {
    assert Subject(u) == u.host + NormalizePath(u.path);
  }

  /** A constructed regexp matcher's decision depends only on the host and the normalised path. */
  lemma RegexpDependsOnlyOnHostAndPath<R>(compile: string -> Result<R, string>, matchString: (R, string) -> bool,
                                          expr: string, u: Url, v: Url)
    requires MatchRegexp(compile, matchString, expr).Success?
    requires u.host == v.host && NormalizePath(u.path) == NormalizePath(v.path)
    ensures Match(MatchRegexp(compile, matchString, expr).value, u) ==
      Match(MatchRegexp(compile, matchString, expr).value, v)
  {
    assert Subject(u) == Subject(v);
  }

  /** Pattern and regexp matchers judge the same subject: URLs with equal
      subjects get the same decision from every such matcher. */
  lemma SameSubjectSameDecision<R>(globMatch: (string, string) -> bool, pattern: string,
                                   compile: string -> Result<R, string>, matchString: (R, string) -> bool,
                                   expr: string, u: Url, v: Url)
    requires Subject(u) == Subject(v)
    ensures Match(MatchPattern(globMatch, pattern), u) == Match(MatchPattern(globMatch, pattern), v)
    ensures MatchRegexp(compile, matchString, expr).Success? ==>
      Match(MatchRegexp(compile, matchString, expr).value, u) ==
      Match(MatchRegexp(compile, matchString, expr).value, v)
  {
  }
}
