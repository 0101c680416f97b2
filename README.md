# mux route-selection engine in Dafny

This project models the route-selection core of the `mux` HTTP router, a Go
package. It covers the following:

- **Helpers** (`helper.go`, module `Helper`):
  - the check that builder arguments come in key/value pairs;
  - converting key/value arguments into a map of comparators, where the last duplicate key wins and the first builder error stops the conversion;
  - matching a header map, where an empty comparator means "key present, any value";
  - classifying a path template by its `#` and `:` sentinels.
- **Matchers** (`matcher.go`, module `Matchers`):
  - exact path equality;
  - scheme and method sets, which are case-folded when the matcher is built;
  - header matching;
  - custom predicates.

  Each matcher has a rank (any < path < scheme).
- **Validators** (`validator.go`, module `Validators`):
  - the method validator, over the eight standard methods;
  - the validator that demands a path-rank matcher.
- **Routes** (`route.go`, module `Routes`, class `Route`). The builder calls work under a sticky build error:
  - `Path` classifies a template as normal, vars or regex;
  - a variable index maps every `:`-segment of a template to its position;
  - variables are extracted from a request path by that index;
  - matching is a conjunction of the matchers that short-circuits.
- **Router** (`router.go`, module `Routers`, class `Router`):
  - a registry of routes, one bucket per method, with validation on registration;
  - first-match selection;
  - error aggregation;
  - the precedence sort, with routes by descending kind and matchers by ascending rank;
  - `cleanPath`;
  - the decision `ServeHTTP` takes for a request: redirect, not found, dispatch, or a run-time panic on a variable index past the path.
- **Queries** (`context.go`, module `Context`): splitting parsed query values on commas, and `Get` with its empty-list default.

Support modules:

- `Wrappers`: Option and Result.
- `Errors`: the recorded errors, as values.
- `Text`: the pieces of Go's `strings` and `path` packages that the router uses, listed below.
- `Http`: requests, handlers, and `CanonicalHeaderKey`.

The `Text` module provides:

- `strings.Split` and joining;
- `HasPrefix`;
- ASCII `ToLower` and `ToUpper`;
- `path.Clean` for rooted paths.

The `Route` and `Router` classes follow the Go structs:

- The builder and registry operations are methods that update the fields in place.
- Each method's postcondition states its whole new state in terms of specification functions: `SortByRank`, `SortByKind`, `VarIndex`, `FirstFailure`, `Select`, `ErrorsInOrder`, `SplitValues`.
- The properties the router relies on are proved about those functions as lemmas.

In three places the code does something a reader might not expect. The model follows the code:

- **Sort direction.** `routes.Less` (router.go:283-285) puts the higher kind first, so buckets sort regex, then vars, then normal. The comment at router.go:262 agrees with this, but router_test.go:402 expects the opposite order.
- **Duplicate variable suffix.** The key of a repeated placeholder is the text followed by Go's `string(count)`, the character with that code point (route.go:177-179). A reader might expect `:number1`, a decimal suffix; no comment or test in the repository states either form. `Routes.RepeatedPlaceholderKey` proves that the key is `:number` followed by U+0001, and that `:number1` is not a key.
- **Scheme case.** Configured schemes are lower-cased, but the request scheme is compared as given (matcher.go:56, 63). A reader might expect both sides to be folded to lower case.

## Model

| member | source | states |
|---|---|---|
| Helper.BuildExact | helper.go:24-26 | the builder of `convertStringsToMapString` always succeeds with the exact comparator of the value, which accepts that value and is empty iff the value is |
| Helper.Comparison.Compare | helper.go:81-86 | an exact comparator accepts exactly its own string; a pattern accepts what the pattern accepts |
| Helper.Comparison.IsNotEmpty | helper.go:88-90 | only an exact comparator of the empty string is empty |
| Helper.ContainsRegex | helper.go:140-143 | true iff some character of the template is `#` |
| Helper.ContainsVars | helper.go:145-148 | true iff some character of the template is `:` |
| Routes.RankLess | route.go:262-264 | a matcher goes before another exactly when its rank is lower: any before path and scheme, path before scheme |
| Routes.GetVar | route.go:195-201 | the value stored under the key, or the empty string when the key is missing |
| Routes.Route.HasVars | route.go:186-191 | true iff the variable index holds some key |
| Routers.RoutesLess | router.go:283-285 | a route goes before another exactly when its kind is higher: regex before vars and normal, vars before normal |
| Helper.IsEvenPairs | helper.go:12-18 | returns the argument count, and an error carrying the arguments exactly when the count is odd |
| Helper.ConvertPairsFailure | helper.go:61-67 | the conversion fails iff building some value's comparator fails, and then returns the error of the first value that fails |
| Helper.ConvertPairsFailureSticks | helper.go:63-67 | once a builder error occurs, converting further pairs returns that same error (the loop stops there) |
| Helper.ConvertPairsBuiltAll | helper.go:60-71 | a successful conversion built every value's comparator |
| Helper.ConvertPairsKeys | helper.go:60-71 | on success the map's keys are exactly the even-position arguments |
| Helper.ConvertPairsLastWins | helper.go:68-69 | on success each key maps to the comparator of its last pair: a later duplicate key overwrites an earlier one |
| Helper.GenericConvertStringsToMap | helper.go:51-72 | a failing pair-count check is returned unchanged with no map; otherwise the result is the in-order conversion of all pairs, stopping at the first builder error |
| Helper.ConvertExactPairs | helper.go:22-29 | exact comparators never fail to build, so the conversion succeeds and each key holds the exact comparator of its last value |
| Helper.ConvertStringsToMapString | helper.go:22-29 | fails iff the pair-count check fails, with that error; otherwise returns the exact-comparator map |
| Helper.ExactEntryHolds | helper.go:79-90 | a string comparison holds for a key iff the key is present and the string is empty or equal to one of its values |
| Helper.MatchMap | helper.go:108-138 | true iff every configured key (canonicalised when asked) is present and, for a non-empty comparator, one of its values satisfies it |
| Matchers.PathRankIsPathMatcher | validator.go:48-50 | a matcher has path rank iff it is one of the three path matchers |
| Matchers.PathMatcherMatchesOnlyItself | matcher.go:73-79 | a literal path matcher accepts exactly the request path equal to its pattern, with `:` uninterpreted |
| Matchers.MatcherFuncMatchIsTheFunction | matcher.go:24-26 | a custom matcher answers what the wrapped function answers |
| Matchers.HeaderMatchIsMapMatch | matcher.go:16-18 | the header matcher is map matching over the request headers with canonical keys |
| Matchers.NewSchemeMatcher | matcher.go:52-60 | the stored set is the lower-casing of every configured scheme, and holds only lower-case strings |
| Matchers.NewMethodMatcher | matcher.go:31-39 | the stored set is the upper-casing of every configured method, and holds only upper-case strings |
| Matchers.SchemeMatcherAccepts | matcher.go:62-68 | accepts iff the request scheme, not case-folded, is the lower-casing of a configured scheme; an accepted scheme is lower-case |
| Matchers.MethodMatcherAccepts | matcher.go:41-47 | accepts iff the request method, as given, is the upper-casing of a configured method; an accepted method is upper-case |
| Validators.NewMethodValidator | validator.go:14-28 | the default method validator allows exactly the eight standard methods |
| Validators.Verdict | validator.go:30-55 | the method validator passes iff the name is allowed, else BadMethod(name); the path validator passes iff a path-rank matcher exists, else MissingPath |
| Validators.Validate | validator.go:30-55 | returns the verdict of the validator on the route, by lookup or by a scan that stops at the first path-rank matcher, and changes nothing |
| Validators.MethodValidatorAcceptsStandardMethods | validator.go:19-37 | the standard validator passes a name iff it is one of GET, POST, PATCH, DELETE, HEAD, PUT, OPTIONS, CONNECT; otherwise the error carries the name |
| Validators.MethodValidatorRejectsVariants | validator.go:32-34 | "GGET" and lower-case "get" are rejected with a BadMethod error carrying the name |
| Validators.PathValidatorNeedsPathMatcher | validator.go:46-55 | no matchers gives MissingPath; a path-rank matcher anywhere in the list passes; adding a matcher never turns a pass into a failure |
| Routes.TemplateKindClassifies | route.go:144-156 | a template is regex iff it holds `#`, vars iff it holds `:` but no `#`, normal otherwise; its matcher has path rank whatever the compiled pattern |
| Routes.AllMatchIgnoresOrder | route.go:60-67 | whether all matchers accept does not depend on their order |
| Routes.SortByRankSortsAndPermutes | route.go:262-264 | the sorted matcher list is a permutation of the list in non-decreasing rank |
| Routes.SortByRankIdempotent | route.go:262-264 | sorting a sorted matcher list changes nothing |
| Routes.SortByRankKeepsMatching | router.go:264-267 | sorting a route's matchers never changes whether it accepts a request |
| Routes.IndexPointsAtVariables | route.go:164-184 | every stored index points at a segment that starts with the prefix |
| Routes.IndexCoversVariables | route.go:169-176 | every segment that starts with the prefix is recorded under its own text |
| Routes.IndexOfDistinctVariables | route.go:169-176 | with no repeated placeholder, each variable segment is recorded at its own position, no other key exists, and the counter stays 0 |
| Routes.VarIndexOfLastSegment | route.go:164-184 | a template `/a/b/:v` with only the last segment a variable is indexed as `{:v: 3}` |
| Routes.VarOfLastSegment | route.go:208-219 | with that index, the request path `/a/b/x` yields `:v = x` |
| Routes.RepeatCounterIsShared | route.go:166-179 | one repeat counter serves all placeholders: in `/:a/:a/:b/:b` the repeat of `:b` is keyed with the code point 2, not 1 |
| Routes.RepeatedPlaceholderKey | route.go:172-180 | `/:v/:v` is indexed as `:v` at 1 and `:v` followed by the code point 1 at 2; `:v1` is not a key |
| Routes.Route.constructor | route.go:16-36 | a new route has no matchers, name, path, error, handler or variables, and the normal kind |
| Routes.Route.TriggerMatching | route.go:55-68 | no match whenever the route has an error; otherwise a match iff every matcher accepts (an empty list accepts everything) |
| Routes.Route.Handler | route.go:85-90 | sets the handler unless the route has an error, in which case nothing changes |
| Routes.Route.Name | route.go:103-115 | a second name records a NameTaken error and keeps the first name; a first name is stored only without an error |
| Routes.Route.AddMatcher | route.go:123-128 | appends the matcher unless the route has an error |
| Routes.Route.Path | route.go:138-162 | a second path records PathTaken; the kind and path are always overwritten; a vars template gets its variable index; the path matcher is appended only without an error |
| Routes.Route.ExtractVarsIndexies | route.go:164-184 | the stored index is the variable index of the template |
| Routes.Route.ExtractVars | route.go:208-219 | the variables have exactly the keys of the index, each mapped to the request path's segment at the stored position |
| Routes.Route.Schemes | route.go:223-225 | appends the lower-cased scheme matcher unless the route has an error |
| Routes.Route.Headers | route.go:236-243 | without an error: an odd argument count becomes the route's error and adds no matcher; an even count appends the header matcher of the converted pairs; with an error nothing changes |
| Routes.Route.SortMatchers | router.go:266 | the matchers become their rank-sorted permutation |
| Routes.Route.MatcherFunc | route.go:246-248 | appends the custom matcher unless the route has an error |
| Routers.FirstMatch | router.go:60-65 | the position of an accepting route with no accepting route before it; none iff no route of the bucket accepts |
| Routers.SelectIsFirstAccepting | router.go:58-69 | nothing for a method without a bucket; a selected route is registered, accepts the request, and no earlier route of its bucket does; nothing iff no route of the bucket accepts |
| Routers.DefaultRegistration | router.go:154-168 | with the default validators a route registers cleanly iff its method is standard and it has a path matcher; a bad method is reported first |
| Routers.NoValidatorsNoFailure | router.go:158-159 | without validators no route fails registration |
| Routers.BucketErrors | router.go:251-256 | at most one error per route, and none iff no route of the bucket has an error |
| Routers.BucketErrorsComeFromRoutes | router.go:250-257 | every reported error is the error of a route of the bucket |
| Routers.RouteErrorsAreReported | router.go:250-257 | the error of every route that has one is reported |
| Routers.ErrorsInOrderEmpty | router.go:246-260 | no error is reported iff no route of any visited bucket has one |
| Routers.SortByKindSortsAndPermutes | router.go:283-285 | the sorted bucket is a permutation of the bucket in non-increasing kind: regex, vars, normal |
| Routers.WithKindOfSorted | router.go:268 | sorting keeps the routes of each kind in their registration order |
| Routers.SortByKindIdempotent | router.go:263-270 | sorting a sorted bucket changes nothing, so sorting routes twice is sorting once |
| Routers.SortAllMatchers | router.go:264-267 | every registered route's matchers become their rank-sorted permutation |
| Routers.CleanPath | router.go:131-146 | the result is rooted; the empty path becomes `/`; a trailing slash of the input survives |
| Routers.CleanPathIdempotent | router.go:131-146 | a cleaned path cleans to itself, so a redirect target is never redirected again |
| Routers.Router.constructor | router.go:11-18 | a new router has no routes, the method and path validators, no not-found handler and every flag off |
| Routers.Router.TriggerMatching | router.go:58-69 | returns the first route of the request method's bucket that matches, or nothing |
| Routers.Router.RegisterRoute | router.go:154-171 | sets the route's method; its error is the first failure of the "method" then "path" validators, wrapped, if any; the route is appended to its bucket whatever the outcome and no other bucket changes |
| Routers.CollectErrors | router.go:251-256 | the errors of one bucket, in route order; the flag is set iff some route of the bucket has an error |
| Routers.Router.VisitBucket | router.go:250-256 | visiting one more bucket appends its routes' errors to those already collected |
| Routers.Router.HasErrors | router.go:246-260 | visits every bucket once; the errors are those of the routes, bucket by bucket in route order; the flag is set iff some registered route has an error |
| Routers.Router.SortRoutes | router.go:263-270 | each bucket becomes its kind-sorted permutation and each registered route's matchers their rank-sorted permutation |
| Routers.Router.NotFoundHandler | router.go:120-126 | the configured not-found handler, or the standard 404 responder when none is set |
| Routers.Router.Routed | router.go:95-97 | unless routing is case-sensitive, the request path is lower-cased; nothing else changes |
| Routers.Router.ServeHTTP | router.go:78-118 | a request is redirected to the cleaned path iff cleaning is on and changes the path; otherwise the request's path is lower-cased in place unless routing is case-sensitive, and that routed request goes to the not-found handler when unmatched, or to the matched route's handler with its variables; the routed request is what the handler receives and what the caller's request becomes; of the routes, only the matched one's handler may change |
| Routers.Router.ServeMatched | router.go:99-117 | an unmatched routed request gets the not-found handler; a matched one goes to the first route of its method that accepts it; the outcome carries the routed request; of the routes, only the matched one's handler may change |
| Routers.Router.DispatchTo | router.go:106-117 | a route with variables gets them extracted, or panics when an index lies past the path; a route without a handler is given the not-found handler for good; the outcome carries the routed request |
| Context.Get | context.go:73-78 | the stored list for a present key, the empty list for an absent one |
| Context.SplitValues | context.go:93-99 | the result's keys are exactly the raw keys with at least one value, each holding its split values |
| Context.ExtractQueries | context.go:85-102 | a parse failure is returned with no queries; otherwise the queries are the raw ones split on commas |
| Context.SplitAllAppend | context.go:94-98 | a key's list is the in-order concatenation of the pieces of its values |
| Context.SplitAllLength | context.go:94-98 | a key's list has one piece per value plus one per comma |
| Context.SplitAllLacksCommas | context.go:96 | no piece holds a comma |
| Context.SplitAllWithoutCommas | context.go:94-98 | values without commas come through unchanged |
| Context.SplitOneValueRoundTrip | context.go:96 | the pieces of one value, joined with commas, give the value back |
| Context.GetExtracted | context.go:73-99 | looking a key up in the extracted queries gives the split values of its raw list, or an empty list |
| Text.SplitLength | context.go:96 | a string with n separators splits into n + 1 pieces |
| Text.CleanRootedIdempotent | router.go:138 | cleaning a rooted path twice is cleaning it once |
| Text.CleanRootedDropsTrailingSlash | router.go:138-143 | a cleaned path with a slash appended cleans back to itself, so the slash `cleanPath` puts back is the only change |
| Text.ToLowerFixesExactlyLowerCase | router.go:95-97 | lower-casing a path leaves it unchanged iff it is already lower-case |

## Left out

- Network I/O: `ListenAndServe` and writing the response. `ServeHTTP` returns a `Decision` instead of writing the 301, calling the handler or panicking. A request is a value, so the in-place lowering of its path is shown by the routed request the `Decision` carries, not by a change to a shared object.
- Request-context plumbing: `GetQueries`, `CurrentRoute`, `GetVars`, `setQueries`, `setVars`, `contextGet` and `contextSet` only store values in the request context. Also left out of `ServeHTTP`: attaching the route, the queries and the variables to the request.
- `queries.GetAll` and `vars.GetAll` return their map unchanged, so they have no model. `vars.Get` is `GetVar`.
- `url.ParseQuery` and `URL.EscapedPath()` are standard-library calls. Their outcomes are inputs: the parse result of `ExtractQueries` and the request's `escapedPath`.
- Regular expressions:
  - `regexComparsion` and `convertStringsToMapRegex` are not modelled;
  - the compiled path-variable and path-regex matchers are predicates on the path, supplied by the caller of `Path`;
  - `newPathWithVarsMatcher` and `newPathRegexMatcher` are not part of this model.
- The `Rank()` method and its constants are not declared in matcher.go. Rank is taken as any < path < scheme, and the method matcher is given the lowest rank.
- The header matcher is declared over strings but built from comparisons. The model uses comparisons.
- `newPathValidator` (router.go:16) is not part of this model; it is taken to be the path-matcher validator.
- `SetMethodName`, `SetError`, `GetMatchers`, `HasHandler` and `GetHandler` are not part of this model. They are taken to be plain field accessors. The getters `GetError`, `HasError` and `GetName` only read a field.
- The per-verb registration wrappers (`Get`, `Put`, `Post`, `Delete`, `Options`, `Head`, `Handle`, `HandleFunc`) are not modelled. Neither are `NewRoute`, `UseRoute` and the pluggable route constructor. They only compose the modelled operations, and the model has a single `Route` class.
- `StrictSlash` is not modelled; it is never read in router.go.
- Error message formatting (errors.go) is not modelled. Errors are values.
- Case mapping and `CanonicalHeaderKey` cover ASCII letters only.
- `Routers.SortByKind` and `Routes.SortByRank` model one of the outcomes that `sort.Sort` may give, the stable one. Go's sort is not stable, so it may order routes of equal kind, or matchers of equal rank, differently.
- `Routers.Router.SortRoutes` sorts the matchers of every bucket first, then the buckets. Go interleaves the two per bucket. Matcher sorting never reads or writes a route's kind, so the outcome is the same.
- `Routes.Route.ExtractVars` requires the index to fit the request path, where Go panics. `ServeHTTP` models that panic as `IndexPanic`.
- Go's nil slices and nil handlers have no counterpart in the model:
  - `Helper.EntryHolds`: `matchMap` rejects a key mapped to a nil slice (helper.go:115-119). The model only asks that the key be present, so a key mapped to a nil slice is treated like one mapped to an empty slice.
  - `Routes.Route.Handler`: `Handler(nil)` on a route without an error clears the handler (route.go:85-90), after which `ServeHTTP` installs the not-found handler. The model's handler argument is never nil, so this path is not modelled.
- `Helper.GenericConvertStringsToMap` requires a successful pair check to return a count that, rounded up to even, is at most the number of arguments. A larger count makes Go index past the arguments and panic, which is not modelled. Every call site passes `isEvenPairs`, which returns the argument count itself.
- `Routers.Router.HasErrors`: Go visits the buckets in the map's unspecified order. The model returns that order as a ghost output and states the errors in terms of it.
- The map-iteration order of `MatchMap`, `ExtractVars` and `ExtractQueries` is not observable in their results, so those loops pick keys in an arbitrary order.
