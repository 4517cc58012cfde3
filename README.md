# URL matchers of the `ant` crawler, modelled in Dafny

This project models `matchers.go` of the `ant` web crawler (package `ant`): the
layer that decides, for every discovered link, whether the crawler may queue it.
It consists of

- the `Matcher` capability and its function adapter `MatcherFunc`, whose `Match`
  forwards to the wrapped function;
- `MatchHostname(host)`: exact, case-sensitive equality on the URL's host;
- `MatchPattern(pattern)`: a glob match of the *subject* against the pattern;
- `MatchRegexp(expr)`: compiles the expression at construction (a compile error
  panics) and then searches the subject with it;
- `normalizePath`: prepends `/` to a non-empty path that lacks one.

The subject is `host + normalizePath(path)`; scheme, query and fragment are never read.

Files:

- `urls.dfy` (module `Urls`): the parsed URL record (`scheme`, `host`, `path`, `query`, `fragment`).
- `wrappers.dfy` (module `Wrappers`): a `Result` datatype standing in for the panic.
- `paths.dfy` (module `Paths`): `NormalizePath` and its properties.
- `matchers.dfy` (module `Matchers`): the subject, the three matchers and their properties.

`MatcherFunc` is the arrow type `Url -> bool`, and `Matchers.Match(m, u)` applies it;
every matcher in `matchers.go` is a `MatcherFunc` closure, and so is every model
matcher. The two foreign engines are parameters. `globMatch(str, pattern)` stands for
`match.Match` of `github.com/tidwall/match`. `compile(expr)` and `matchString(re, str)`
stand for Go's `regexp.Compile` and `(*Regexp).MatchString`, with the type parameter
`R` for a compiled expression. The panic becomes the failure
`RegexpPanic(expr, reason)`: the caller receives no matcher at all.

Beyond the listed behaviour, the model proves why normalisation exists. For any host
without a slash, the subject can be split back, at its first slash, into the host and
the normalised path (`SubjectRoundTrip`). Two such URLs therefore have the same subject
exactly when their hosts are equal and their paths normalise alike (`SubjectInjective`).

The design description of this component says that the normalised subject never
starts with two leading slashes. The code adds at most one slash and leaves a path
such as `//a` as it is. The model follows the code (`NormalizePathKeepsRepeatedSlashes`).

## Model

| member | source | states |
|---|---|---|
| `Paths.NormalizePath` | matchers.go:66-71 | the result is empty or starts with `/`; it is empty exactly when the input is; it is the input or one character longer; the input is its suffix |
| `Paths.NormalizePathCases` | matchers.go:66-71 | the empty path stays empty; a non-empty path without a leading `/` gets one prepended; a path starting with `/` is unchanged |
| `Paths.NormalizePathIdempotent` | matchers.go:66-71 | normalising twice gives the same as normalising once |
| `Paths.NormalizePathFixedPoints` | matchers.go:66-71 | a path is left unchanged if and only if it is empty or starts with `/` |
| `Paths.NormalizePathIsShortestNormalizedExtension` | matchers.go:66-71 | the result is the unique shortest string that is empty or starts with `/` and ends with the input |
| `Paths.NormalizePathSameResult` | matchers.go:66-71 | two paths normalise alike if and only if they are equal or one is the other with the missing `/` added |
| `Paths.NormalizePathKeepsRepeatedSlashes` | matchers.go:66-71 | `"//a"` stays `"//a"`, `"a"` becomes `"/a"`, `"/a"` and `""` are unchanged |
| `Matchers.Subject` | matchers.go:61 | the subject starts with the host; equals the host exactly when the path is empty; has `/` right after the host otherwise; ends with the path |
| `Matchers.SubjectRoundTrip` | matchers.go:66-71 | for a host without `/`, splitting the subject at its first `/` gives back the host and the normalised path |
| `Matchers.SubjectInjective` | matchers.go:46 | for hosts without `/`, equal subjects if and only if equal hosts and equally normalised paths |
| `Matchers.SubjectAmbiguousForHostWithSlash` | matchers.go:46 | when the host may contain `/`, host `a/b` with an empty path and host `a` with path `/b` give the same subject |
| `Matchers.HostnameExact` | matchers.go:26-36 | `Match` on `MatchHostname(h)` is true if and only if the URL's host equals `h` |
| `Matchers.HostnameDependsOnlyOnHost` | matchers.go:33-36 | URLs with the same host get the same decision; two accepted URLs share their host |
| `Matchers.HostnameNoFoldingNoPortStripping` | matchers.go:35 | `Example.com` and `example.com:443` do not match `example.com`; an empty configured host matches an empty host |
| `Matchers.PatternJudgesSubject` | matchers.go:44-48 | `Match` on `MatchPattern(p)` is the glob engine applied to `host + normalizePath(path)` as the string and `p` as the pattern |
| `Matchers.PatternDependsOnlyOnHostAndPath` | matchers.go:44-48 | URLs with the same host and equally normalised paths get the same pattern decision, whatever their scheme, query and fragment |
| `Matchers.MatchRegexp` | matchers.go:55-59 | construction fails if and only if compilation fails, and the failure carries the expression and the compiler's error |
| `Matchers.RegexpForwardsToCompiled` | matchers.go:55-63 | when compilation succeeds a matcher is returned, and its `Match` searches `host + normalizePath(path)` with the expression compiled at construction |
| `Matchers.RegexpDependsOnlyOnHostAndPath` | matchers.go:60-62 | URLs with the same host and equally normalised paths get the same regexp decision, whatever their scheme, query and fragment |
| `Matchers.SameSubjectSameDecision` | matchers.go:44-63 | URLs with equal subjects get the same decision from every pattern matcher and every constructed regexp matcher |

## Left out

- The glob algorithm of `github.com/tidwall/match` (`*`, `?`, classes, escapes, full-subject anchoring): an external library, modelled as the parameter `globMatch`.
- The Go `regexp` engine and its compile rules (syntax, substring search versus `^`/`$` anchoring): foreign code, modelled as the parameters `compile` and `matchString`. The asymmetry between anchored glob matching and unanchored regexp search therefore cannot be stated.
- The panic message `ant: regexp %q - %s` built with `fmt.Sprintf`: presentation only; the failure keeps the expression and the compiler's error.
- `net/url` parsing and the other fields of `url.URL` (`Opaque`, `User`, `RawPath`, `RawQuery` encoding and so on): only `Host` and `Path` are read, so a plain record with scheme, host, path, query and fragment suffices.
- Go strings are byte sequences; the model uses character sequences. Only the first character is inspected, against the ASCII `/`, which never occurs inside a multi-byte UTF-8 character, so the decisions agree.
- Other implementations of the `Matcher` interface: Go interfaces have no counterpart here; every matcher the file builds is a `MatcherFunc`, which is what the model covers.
- Safety for concurrent use from several goroutines: the model is a set of pure functions, so there is no shared state to reason about.
- Combining matchers with boolean logic: done by callers, not in `matchers.go`.
