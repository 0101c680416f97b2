/**
 * matcher.go: the predicates a route is made of. Each matcher decides a
 * request on its own and carries a rank, which validation and the matcher
 * sort read.
 */
module Matchers {
  import opened Text
  import opened Http
  import opened Helper

  /** The rank of a matcher, lowest first. */
  datatype Rank = RankAny | RankPath | RankScheme

  function RankOrder(r: Rank): nat
  {
    match r
    case RankAny => 0
    case RankPath => 1
    case RankScheme => 2
  }

  /**
   * The matcher variants. The compiled forms of a variable template
   * (`newPathWithVarsMatcher`) and of a regular-expression template
   * (`newPathRegexMatcher`) are kept as the predicate on the request path they
   * decide, tagged with the template they come from.
   */
  datatype Matcher =
    | PathMatcher(pattern: string)
    | PathVarsMatcher(template: string, accepts: string -> bool)
    | PathRegexMatcher(template: string, accepts: string -> bool)
    | SchemeMatcher(schemes: set<string>)
    | MethodMatcher(methods: set<string>)
    | HeaderMatcher(pairs: map<string, Comparison>)
    | CustomMatcher(f: Request -> bool)

  /** Path matchers have path rank, schemes scheme rank, every other matcher the lowest. */
  function RankOf(m: Matcher): Rank
  {
    match m
    case PathMatcher(_) => RankPath
    case PathVarsMatcher(_, _) => RankPath
    case PathRegexMatcher(_, _) => RankPath
    case SchemeMatcher(_) => RankScheme
    case MethodMatcher(_) => RankAny
    case HeaderMatcher(_) => RankAny
    case CustomMatcher(_) => RankAny
  }

  /**
   * The `Match` method of each matcher: byte-for-byte path equality, the
   * compiled template's decision, membership of the request scheme or method
   * as given, header matching with canonical keys, or the wrapped function.
   */
  predicate Match(m: Matcher, req: Request)
  {
    match m
    case PathMatcher(pattern) => pattern == req.path
    case PathVarsMatcher(_, accepts) => accepts(req.path)
    case PathRegexMatcher(_, accepts) => accepts(req.path)
    case SchemeMatcher(schemes) => req.scheme in schemes
    case MethodMatcher(methods) => req.verb in methods
    case HeaderMatcher(pairs) => MapMatches(pairs, req.header, true)
    case CustomMatcher(f) => f(req)
  }

  /** The matchers of path rank are exactly the three path variants. */
  lemma PathRankIsPathMatcher(m: Matcher)
    ensures RankOf(m) == RankPath <==> m.PathMatcher? || m.PathVarsMatcher? || m.PathRegexMatcher?
  {
  }

  /**
   * A literal path matcher accepts exactly the request path equal to its
   * pattern; a `:` in the pattern is an ordinary character.
   */
  lemma PathMatcherMatchesOnlyItself(pattern: string, req: Request)
    ensures Match(PathMatcher(pattern), req) <==> req.path == pattern
  {
  }

  /** `MatcherFunc.Match` returns what the wrapped function returns. */
  lemma MatcherFuncMatchIsTheFunction(f: Request -> bool, req: Request)
    ensures Match(CustomMatcher(f), req) == f(req)
  {
  }

  /** The header matcher is `matchMap` over the request headers with canonical keys. */
  lemma HeaderMatchIsMapMatch(pairs: map<string, Comparison>, req: Request)
    ensures Match(HeaderMatcher(pairs), req) <==> MapMatches(pairs, req.header, true)
  {
  }

  /** The set `newSchemeMatcher` stores: every configured scheme, lower-cased. */
  function SchemeSet(schemes: seq<string>): set<string>
  {
    set s | s in schemes :: ToLower(s)
  }

  /** The set `newMethodMatcher` stores: every configured method, upper-cased. */
  function MethodSet(methods: seq<string>): set<string>
  {
    set v | v in methods :: ToUpper(v)
  }

  /** `newSchemeMatcher`: inserts each scheme, lower-cased, into the set. */
  method NewSchemeMatcher(schemes: seq<string>) returns (m: Matcher)
    ensures m == SchemeMatcher(SchemeSet(schemes))
    ensures forall s :: s in m.schemes ==> IsLowerCase(s)
  {
    var stored: set<string> := {};
    for i := 0 to |schemes|
      invariant stored == set s | s in schemes[..i] :: ToLower(s)
    {
      stored := stored + {ToLower(schemes[i])};
      assert schemes[..i + 1] == schemes[..i] + [schemes[i]];
    }
    assert schemes[..|schemes|] == schemes;
    forall s | s in stored
      ensures IsLowerCase(s)
    {
      var v :| v in schemes && ToLower(v) == s;
      ToLowerIsLowerCase(v);
    }
    m := SchemeMatcher(stored);
  }

  /** `newMethodMatcher`: inserts each method, upper-cased, into the set. */
  method NewMethodMatcher(methods: seq<string>) returns (m: Matcher)
    ensures m == MethodMatcher(MethodSet(methods))
    ensures forall v :: v in m.methods ==> IsUpperCase(v)
  {
    var stored: set<string> := {};
    for i := 0 to |methods|
      invariant stored == set v | v in methods[..i] :: ToUpper(v)
    {
      stored := stored + {ToUpper(methods[i])};
      assert methods[..i + 1] == methods[..i] + [methods[i]];
    }
    assert methods[..|methods|] == methods;
    forall v | v in stored
      ensures IsUpperCase(v)
    {
      var w :| w in methods && ToUpper(w) == v;
      ToUpperIsUpperCase(w);
    }
    m := MethodMatcher(stored);
  }

  /**
   * A scheme matcher built from a list accepts a request exactly when the
   * request scheme, which is not case-folded, is the lower-casing of a
   * configured scheme; so a scheme with an upper-case letter never matches,
   * and configured schemes that differ only in case accept the same requests.
   */
  lemma SchemeMatcherAccepts(schemes: seq<string>, req: Request)
    ensures Match(SchemeMatcher(SchemeSet(schemes)), req) <==>
              exists s :: s in schemes && ToLower(s) == req.scheme
    ensures Match(SchemeMatcher(SchemeSet(schemes)), req) ==> IsLowerCase(req.scheme)
  {
    if Match(SchemeMatcher(SchemeSet(schemes)), req) {
      var s :| s in schemes && ToLower(s) == req.scheme;
      ToLowerIsLowerCase(s);
    }
  }

  /**
   * A method matcher built from a list accepts a request exactly when the
   * request method, as given, is the upper-casing of a configured method.
   */
  lemma MethodMatcherAccepts(methods: seq<string>, req: Request)
    ensures Match(MethodMatcher(MethodSet(methods)), req) <==>
              exists v :: v in methods && ToUpper(v) == req.verb
    ensures Match(MethodMatcher(MethodSet(methods)), req) ==> IsUpperCase(req.verb)
  {
    if Match(MethodMatcher(MethodSet(methods)), req) {
      var v :| v in methods && ToUpper(v) == req.verb;
      ToUpperIsUpperCase(v);
    }
  }
}
