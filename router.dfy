/**
 * router.go: the registry of routes by method, route selection, error
 * aggregation, the precedence sort, path cleaning and the decision
 * `ServeHTTP` takes for a request.
 */
module Routers {
  import opened Wrappers
  import opened Errors
  import opened Text
  import opened Http
  import opened Matchers
  import opened Routes
  import opened Validators

  /** Every route registered in some bucket. */
  ghost function RoutesIn(routes: map<string, seq<Route>>): set<Route>
  {
    set k, i | k in routes && 0 <= i < |routes[k]| :: routes[k][i]
  }

  /** The bucket of a method; a method without routes has an empty one. */
  function Bucket(routes: map<string, seq<Route>>, methodName: string): seq<Route>
  {
    if methodName in routes then routes[methodName] else []
  }

  // ---------------------------------------------------------------------
  // Route selection
  // ---------------------------------------------------------------------

  /** The position of the first route in the bucket that accepts the request. */
  function FirstMatch(bucket: seq<Route>, req: Request): (r: Option<nat>)
    reads bucket`err, bucket`ms
    ensures r.Some? ==> r.value < |bucket| && bucket[r.value].Accepts(req)
    ensures r.Some? ==> forall j :: 0 <= j < r.value ==> !bucket[j].Accepts(req)
    ensures r.None? <==> forall j :: 0 <= j < |bucket| ==> !bucket[j].Accepts(req)
  {
    if bucket == [] then None
    else if bucket[0].Accepts(req) then Some(0)
    else
      match FirstMatch(bucket[1..], req)
      case None => None
      case Some(i) => Some(i + 1)
  }

  /** The route selected for a request: the first accepting route of its method's bucket. */
  function Select(routes: map<string, seq<Route>>, req: Request): Option<Route>
    reads Bucket(routes, req.verb)`err, Bucket(routes, req.verb)`ms
  {
    match FirstMatch(Bucket(routes, req.verb), req)
    case None => None
    case Some(i) => Some(Bucket(routes, req.verb)[i])
  }

  /**
   * A selected route is a registered route of the request's method that
   * accepts the request, and no route before it in that bucket does; when
   * nothing is selected, no route of that method accepts the request.
   */
  lemma SelectIsFirstAccepting(routes: map<string, seq<Route>>, req: Request)
    ensures req.verb !in routes ==> Select(routes, req) == None
    ensures Select(routes, req).Some? ==>
              exists i :: 0 <= i < |Bucket(routes, req.verb)| && Bucket(routes, req.verb)[i] == Select(routes, req).value &&
                          Select(routes, req).value.Accepts(req) &&
                          forall j :: 0 <= j < i ==> !Bucket(routes, req.verb)[j].Accepts(req)
    ensures Select(routes, req).Some? ==> Select(routes, req).value in RoutesIn(routes)
    ensures Select(routes, req).None? <==>
              forall j :: 0 <= j < |Bucket(routes, req.verb)| ==> !Bucket(routes, req.verb)[j].Accepts(req)
  {
    var bucket := Bucket(routes, req.verb);
    var r := FirstMatch(bucket, req);
    if r.Some? {
      assert bucket[r.value] == Select(routes, req).value;
      assert req.verb in routes && routes[req.verb][r.value] in RoutesIn(routes);
    }
  }

  // ---------------------------------------------------------------------
  // Registration
  // ---------------------------------------------------------------------

  /**
   * The first failure among the validators registered under the given keys,
   * consulted in order and skipping keys without a validator.
   */
  function FirstFailure(validators: map<string, Validator>, keys: seq<string>, methodName: string, ms: seq<Matcher>): Option<Error>
  {
    if keys == [] then None
    else
      var earlier := FirstFailure(validators, keys[..|keys| - 1], methodName, ms);
      var key := keys[|keys| - 1];
      if earlier.Some? then earlier
      else if key in validators then Verdict(validators[key], methodName, ms)
      else None
  }

  /** The keys under which `RegisterRoute` looks validators up, in order. */
  const ValidatorKeys: seq<string> := ["method", "path"]

  /** The validators `NewRouter` installs. */
  function DefaultValidators(): map<string, Validator>
  {
    map["method" := NewMethodValidator(), "path" := PathMatcherValidator]
  }

  /**
   * With the default validators a route registers cleanly exactly when its
   * method is standard and it has a path matcher; a non-standard method is
   * reported even when the path is missing too, since the method is checked
   * first and the check stops there.
   */
  lemma DefaultRegistration(methodName: string, ms: seq<Matcher>)
    ensures FirstFailure(DefaultValidators(), ValidatorKeys, methodName, ms).None? <==>
              methodName in Methods && HasPathMatcher(ms)
    ensures methodName !in Methods ==>
              FirstFailure(DefaultValidators(), ValidatorKeys, methodName, ms) == Some(BadMethod(methodName))
    ensures methodName in Methods && !HasPathMatcher(ms) ==>
              FirstFailure(DefaultValidators(), ValidatorKeys, methodName, ms) == Some(MissingPath)
  {
    var vs := DefaultValidators();
    assert ValidatorKeys[..1] == ["method"];
    assert ["method"][..0] == [];
    var byMethod := FirstFailure(vs, ["method"], methodName, ms);
    assert FirstFailure(vs, [], methodName, ms) == None;
    assert "method" in vs && vs["method"] == NewMethodValidator();
    assert byMethod == Verdict(NewMethodValidator(), methodName, ms);
    assert FirstFailure(vs, ValidatorKeys, methodName, ms) ==
           if byMethod.Some? then byMethod else Verdict(PathMatcherValidator, methodName, ms);
  }

  /** Without any validator, every route registers cleanly. */
  lemma NoValidatorsNoFailure(keys: seq<string>, methodName: string, ms: seq<Matcher>)
    ensures FirstFailure(map[], keys, methodName, ms) == None
  {
    if keys != [] {
      NoValidatorsNoFailure(keys[..|keys| - 1], methodName, ms);
    }
  }

  // ---------------------------------------------------------------------
  // Error aggregation
  // ---------------------------------------------------------------------

  /** The errors of the routes of a bucket, in bucket order, one per route with an error. */
  function BucketErrors(bucket: seq<Route>): (errs: seq<Error>)
    reads bucket`err
    ensures |errs| <= |bucket|
    ensures errs == [] <==> forall i :: 0 <= i < |bucket| ==> bucket[i].err.None?
  {
    if bucket == [] then []
    else
      var last := bucket[|bucket| - 1];
      BucketErrors(bucket[..|bucket| - 1]) + (if last.err.Some? then [last.err.value] else [])
  }

  /** Every reported error is the error of a route of the bucket. */
  lemma {:induction false} BucketErrorsComeFromRoutes(bucket: seq<Route>)
    ensures forall e :: e in BucketErrors(bucket) ==> exists i :: 0 <= i < |bucket| && bucket[i].err == Some(e)
  {
    if bucket != [] {
      var init := bucket[..|bucket| - 1];
      BucketErrorsComeFromRoutes(init);
      forall e | e in BucketErrors(bucket)
        ensures exists i :: 0 <= i < |bucket| && bucket[i].err == Some(e)
      {
        if e in BucketErrors(init) {
          var i :| 0 <= i < |init| && init[i].err == Some(e);
          assert bucket[i] == init[i];
        } else {
          assert bucket[|bucket| - 1].err == Some(e);
        }
      }
    }
  }

  /** The error of every route of the bucket that has one is reported. */
  lemma {:induction false} RouteErrorsAreReported(bucket: seq<Route>)
    ensures forall i :: 0 <= i < |bucket| && bucket[i].err.Some? ==> bucket[i].err.value in BucketErrors(bucket)
  {
    if bucket != [] {
      var init := bucket[..|bucket| - 1];
      RouteErrorsAreReported(init);
      forall i | 0 <= i < |bucket| && bucket[i].err.Some?
        ensures bucket[i].err.value in BucketErrors(bucket)
      {
        if i < |init| {
          assert bucket[i] == init[i];
        }
      }
    }
  }

  /** The inner loop of `HasErrors`: the errors of one bucket's routes, in order. */
  method CollectErrors(bucket: seq<Route>) returns (hasError: bool, errs: seq<Error>)
    ensures errs == BucketErrors(bucket)
    ensures hasError <==> exists i :: 0 <= i < |bucket| && bucket[i].err.Some?
  {
    hasError := false;
    errs := [];
    for i := 0 to |bucket|
      invariant errs == BucketErrors(bucket[..i])
      invariant hasError <==> errs != []
    {
      assert bucket[..i + 1][..i] == bucket[..i];
      if bucket[i].err.Some? {
        hasError := true;
        errs := errs + [bucket[i].err.value];
      }
    }
    assert bucket[..|bucket|] == bucket;
  }

  /** The errors of the buckets visited in the given order. */
  function ErrorsInOrder(routes: map<string, seq<Route>>, order: seq<string>): seq<Error>
    requires forall k :: k in order ==> k in routes
    reads RoutesIn(routes)`err
  {
    if order == [] then []
    else
      var k := order[|order| - 1];
      assert forall i :: 0 <= i < |routes[k]| ==> routes[k][i] in RoutesIn(routes);
      ErrorsInOrder(routes, order[..|order| - 1]) + BucketErrors(routes[k])
  }

  /** Visiting one more bucket appends that bucket's errors. */
  lemma ErrorsInOrderSnoc(routes: map<string, seq<Route>>, order: seq<string>, k: string)
    requires forall k' :: k' in order ==> k' in routes
    requires k in routes
    ensures ErrorsInOrder(routes, order + [k]) == ErrorsInOrder(routes, order) + BucketErrors(routes[k])
  {
    assert (order + [k])[..|order|] == order;
  }

  /** No error is reported exactly when no route of a visited bucket has one. */
  lemma {:induction false} ErrorsInOrderEmpty(routes: map<string, seq<Route>>, order: seq<string>)
    requires forall k :: k in order ==> k in routes
    ensures ErrorsInOrder(routes, order) == [] <==>
              forall k, i :: k in order && 0 <= i < |routes[k]| ==> routes[k][i].err.None?
  {
    if order != [] {
      var init := order[..|order| - 1];
      ErrorsInOrderEmpty(routes, init);
      var k := order[|order| - 1];
      if ErrorsInOrder(routes, order) == [] {
        forall k', i | k' in order && 0 <= i < |routes[k']|
          ensures routes[k'][i].err.None?
        {
          var j :| 0 <= j < |order| && order[j] == k';
          if j < |order| - 1 {
            assert k' in init;
          }
        }
      } else {
        if ErrorsInOrder(routes, init) == [] {
          assert k in order;
        } else {
          var k', i :| k' in init && 0 <= i < |routes[k']| && routes[k'][i].err.Some?;
          assert k' in order;
        }
      }
    }
  }

  // ---------------------------------------------------------------------
  // The route sort (`routes.Less`): descending kind
  // ---------------------------------------------------------------------

  /** `routes.Less`: a route goes before another of lower kind. */
  predicate RoutesLess(a: Route, b: Route): (less: bool)
    reads a`kind, b`kind
    ensures less <==> (a.kind == Regex && b.kind != Regex) || (a.kind == Vars && b.kind == Normal)
  {
    KindOrder(a.kind) > KindOrder(b.kind)
  }

  /** What `sort.Sort` promises for a bucket: no route is less than one before it. */
  predicate KindDescending(bucket: seq<Route>)
    reads bucket`kind
  {
    forall i, j :: 0 <= i < j < |bucket| ==> !RoutesLess(bucket[j], bucket[i])
  }

  /** The routes of one kind, in their order. */
  function WithKind(bucket: seq<Route>, k: Kind): seq<Route>
    reads bucket`kind
  {
    if bucket == [] then []
    else (if bucket[0].kind == k then [bucket[0]] else []) + WithKind(bucket[1..], k)
  }

  /**
   * A bucket after sorting: regex routes, then vars routes, then normal
   * routes. `sort.Sort` is not stable; the model takes the outcome that keeps
   * routes of one kind in registration order.
   */
  function SortByKind(bucket: seq<Route>): seq<Route>
    reads bucket`kind
  {
    WithKind(bucket, Regex) + WithKind(bucket, Vars) + WithKind(bucket, Normal)
  }

  /** The routes selected for a kind have that kind. */
  lemma {:induction false} WithKindHasKind(bucket: seq<Route>, k: Kind)
    ensures forall i :: 0 <= i < |WithKind(bucket, k)| ==> WithKind(bucket, k)[i].kind == k
  {
    if bucket != [] {
      WithKindHasKind(bucket[1..], k);
    }
  }

  lemma {:induction false} WithKindPartitions(bucket: seq<Route>)
    ensures multiset(WithKind(bucket, Regex)) + multiset(WithKind(bucket, Vars)) + multiset(WithKind(bucket, Normal))
            == multiset(bucket)
  {
    if bucket != [] {
      WithKindPartitions(bucket[1..]);
      assert bucket == [bucket[0]] + bucket[1..];
    }
  }

  /** Sorting a bucket yields a permutation of it in non-increasing kind. */
  lemma SortByKindSortsAndPermutes(bucket: seq<Route>)
    ensures KindDescending(SortByKind(bucket))
    ensures multiset(SortByKind(bucket)) == multiset(bucket)
  {
    WithKindPartitions(bucket);
    WithKindHasKind(bucket, Regex);
    WithKindHasKind(bucket, Vars);
    WithKindHasKind(bucket, Normal);
    var x, v, n := WithKind(bucket, Regex), WithKind(bucket, Vars), WithKind(bucket, Normal);
    var out := SortByKind(bucket);
    forall i, j | 0 <= i < j < |out|
      ensures !RoutesLess(out[j], out[i])
    {
      assert out == x + v + n;
      if i < |x| {
        assert out[i].kind == Regex;
      } else if i < |x| + |v| {
        assert out[i].kind == Vars;
        assert out[j] == if j < |x| + |v| then v[j - |x|] else n[j - |x| - |v|];
      } else {
        assert out[i].kind == Normal && out[j].kind == Normal;
      }
    }
  }

  /** Selecting one kind distributes over concatenation. */
  lemma {:induction false} WithKindAppend(a: seq<Route>, b: seq<Route>, k: Kind)
    ensures WithKind(a + b, k) == WithKind(a, k) + WithKind(b, k)
  {
    if a == [] {
      assert a + b == b;
    } else {
      var ab := a + b;
      assert ab[0] == a[0];
      assert ab[1..] == a[1..] + b;
      var head := if a[0].kind == k then [a[0]] else [];
      WithKindAppend(a[1..], b, k);
      calc {
        WithKind(ab, k);
        head + WithKind(a[1..] + b, k);
        head + (WithKind(a[1..], k) + WithKind(b, k));
        (head + WithKind(a[1..], k)) + WithKind(b, k);
      }
    }
  }

  /** Selecting one kind from routes of one kind keeps them all or none. */
  lemma {:induction false} WithKindOfOneKind(bucket: seq<Route>, k: Kind, k': Kind)
    requires forall i :: 0 <= i < |bucket| ==> bucket[i].kind == k
    ensures WithKind(bucket, k') == if k == k' then bucket else []
  {
    if bucket != [] {
      WithKindOfOneKind(bucket[1..], k, k');
      assert [bucket[0]] + bucket[1..] == bucket;
    }
  }

  /** Selecting kind k' from the routes of kind k of a bucket. */
  lemma WithKindTwice(bucket: seq<Route>, k: Kind, k': Kind)
    ensures WithKind(WithKind(bucket, k), k') == if k == k' then WithKind(bucket, k) else []
  {
    WithKindHasKind(bucket, k);
    WithKindOfOneKind(WithKind(bucket, k), k, k');
  }

  /** Sorting keeps the routes of each kind, in their order. */
  lemma WithKindOfSorted(bucket: seq<Route>, k: Kind)
    ensures WithKind(SortByKind(bucket), k) == WithKind(bucket, k)
  {
    var x, v, n := WithKind(bucket, Regex), WithKind(bucket, Vars), WithKind(bucket, Normal);
    WithKindAppend(x + v, n, k);
    WithKindAppend(x, v, k);
    WithKindTwice(bucket, Regex, k);
    WithKindTwice(bucket, Vars, k);
    WithKindTwice(bucket, Normal, k);
  }

  /** Sorting a sorted bucket again changes nothing. */
  lemma SortByKindIdempotent(bucket: seq<Route>)
    ensures SortByKind(SortByKind(bucket)) == SortByKind(bucket)
  {
    WithKindOfSorted(bucket, Regex);
    WithKindOfSorted(bucket, Vars);
    WithKindOfSorted(bucket, Normal);
  }

  // ---------------------------------------------------------------------
  // Path cleaning and the serving decision
  // ---------------------------------------------------------------------

  /**
   * `cleanPath`: the empty path is the root; a missing leading slash is
   * added; the path is cleaned, and a trailing slash of the input is put back
   * unless the result is the root.
   */
  function CleanPath(p: string): (r: string)
    ensures |r| > 0 && r[0] == '/'
    ensures p == "" ==> r == "/"
    ensures p != "" && p[|p| - 1] == '/' ==> r[|r| - 1] == '/'
  {
    if p == "" then "/"
    else
      var q := if p[0] != '/' then "/" + p else p;
      var np := CleanRooted(q);
      if q[|q| - 1] == '/' && np != "/" then np + "/" else np
  }

  /**
   * A cleaned path is clean: cleaning it again returns it unchanged, so the
   * location of a redirect is never redirected again.
   */
  lemma CleanPathIdempotent(p: string)
    ensures CleanPath(CleanPath(p)) == CleanPath(p)
  {
    if p == "" {
      assert Split("/", '/') == ["", ""];
      assert Resolve(["", ""]) == [];
      assert CleanRooted("/") == "/";
    } else {
      var q := if p[0] != '/' then "/" + p else p;
      var np := CleanRooted(q);
      CleanRootedIdempotent(q);
      if q[|q| - 1] == '/' && np != "/" {
        CleanRootedDropsTrailingSlash(q);
        var r := np + "/";
        assert CleanPath(p) == r;
        assert r != "" && r[0] == '/' && r[|r| - 1] == '/';
        assert CleanRooted(r) == np;
      } else {
        assert CleanPath(p) == np;
        assert np != "" && np[0] == '/';
        assert CleanRooted(np) == np;
      }
    }
  }

  /**
   * What `ServeHTTP` does with a request: a 301 redirect to the cleaned path,
   * the not-found handler, a dispatch to the matched route's handler with the
   * route variables (only for a route with variables), or a run-time panic
   * when a variable's index lies past the request path's segments. Once the
   * request is routed, `req` is the request as routed: the one the handler
   * receives and the caller's request after the call, whose path Go
   * overwrites in place.
   */
  datatype Decision =
    | Redirect(location: string)
    | NotFound(handler: Handler, req: Request)
    | Dispatch(route: Route, handler: Handler, vars: Option<map<string, string>>, req: Request)
    | IndexPanic(route: Route, req: Request)

  /** The route holds its original matchers sorted by rank. */
  ghost predicate SortedOnce(r: Route, orig: map<Route, seq<Matcher>>)
    reads r`ms
  {
    r in orig && r.ms == SortByRank(orig[r])
  }

  /** While the router sorts, each route holds its original matchers, sorted or not. */
  ghost predicate OriginalOrSorted(all: set<Route>, orig: map<Route, seq<Matcher>>)
    reads all`ms
  {
    all <= orig.Keys && forall r :: r in all ==> r.ms == orig[r] || SortedOnce(r, orig)
  }

  /** `sort.Sort(vv.GetMatchers())` for one route; a route sorted before stays as it is. */
  method SortRouteMatchers(r: Route, ghost all: set<Route>, ghost orig: map<Route, seq<Matcher>>)
    requires r in all && OriginalOrSorted(all, orig)
    modifies r`ms
    ensures OriginalOrSorted(all, orig) && SortedOnce(r, orig)
    ensures forall r' :: r' in all && old(SortedOnce(r', orig)) ==> SortedOnce(r', orig)
  {
    if r.ms != orig[r] {
      SortByRankIdempotent(orig[r]);
    }
    r.SortMatchers();
  }

  /** Sorts the matchers of every route of one bucket. */
  method SortBucketMatchers(bucket: seq<Route>, ghost all: set<Route>, ghost orig: map<Route, seq<Matcher>>)
    requires forall i :: 0 <= i < |bucket| ==> bucket[i] in all
    requires OriginalOrSorted(all, orig)
    modifies all`ms
    ensures OriginalOrSorted(all, orig)
    ensures forall i :: 0 <= i < |bucket| ==> SortedOnce(bucket[i], orig)
    ensures forall r :: r in all && old(SortedOnce(r, orig)) ==> SortedOnce(r, orig)
  {
    for i := 0 to |bucket|
      invariant OriginalOrSorted(all, orig)
      invariant forall j :: 0 <= j < i ==> SortedOnce(bucket[j], orig)
      invariant forall r :: r in all && old(SortedOnce(r, orig)) ==> SortedOnce(r, orig)
    {
      SortRouteMatchers(bucket[i], all, orig);
    }
  }

  /** The matcher half of `SortRoutes`: every route of every bucket has its matchers sorted. */
  method SortAllMatchers(routes: map<string, seq<Route>>)
    modifies RoutesIn(routes)`ms
    ensures forall r :: r in RoutesIn(routes) ==> r.ms == SortByRank(old(r.ms))
  {
    ghost var all := RoutesIn(routes);
    ghost var orig := map r | r in all :: r.ms;
    var keys := routes.Keys;
    while keys != {}
      invariant keys <= routes.Keys
      invariant OriginalOrSorted(all, orig)
      invariant forall k, i :: k in routes && k !in keys && 0 <= i < |routes[k]| ==> SortedOnce(routes[k][i], orig)
      decreases keys
    {
      var k :| k in keys;
      var bucket := routes[k];
      assert forall i :: 0 <= i < |bucket| ==> bucket[i] in all;
      SortBucketMatchers(bucket, all, orig);
      keys := keys - {k};
    }
  }

  /** The bucket half of `SortRoutes`: every bucket sorted by descending kind. */
  method SortBuckets(routes: map<string, seq<Route>>) returns (sorted: map<string, seq<Route>>)
    ensures sorted.Keys == routes.Keys
    ensures forall k :: k in routes ==> sorted[k] == SortByKind(routes[k])
  {
    sorted := routes;
    var keys := routes.Keys;
    while keys != {}
      invariant keys <= sorted.Keys && sorted.Keys == routes.Keys
      invariant forall k :: k in sorted && k in keys ==> sorted[k] == routes[k]
      invariant forall k :: k in sorted && k !in keys ==> sorted[k] == SortByKind(routes[k])
      decreases keys
    {
      var k :| k in keys;
      sorted := sorted[k := SortByKind(sorted[k])];
      keys := keys - {k};
    }
  }

  /** The route's handler, or the fallback when it has none. */
  function HandlerOr(route: Route, fallback: Handler): (h: Handler)
    reads route`handler
    ensures route.handler.Some? ==> h == route.handler.value
    ensures route.handler.None? ==> h == fallback
  {
    if route.handler.Some? then route.handler.value else fallback
  }

  class Router {
    /** `NotFoundHandler`; `None` is Go's nil. */
    var notFound: Option<Handler>
    /** The routes registered under each method, in registration order. */
    var routes: map<string, seq<Route>>
    var skipClean: bool
    var useEncodedPath: bool
    var caseSensitiveURL: bool
    /** `Validatoren`: the validators by key. */
    var validators: map<string, Validator>

    /** `NewRouter`: no routes, the method and path validators, every flag off. */
    constructor ()
      ensures notFound == None && routes == map[] && validators == DefaultValidators()
      ensures !skipClean && !useEncodedPath && !caseSensitiveURL
    {
      notFound := None;
      routes := map[];
      skipClean := false;
      useEncodedPath := false;
      caseSensitiveURL := false;
      validators := DefaultValidators();
    }

    /**
     * `triggerMatching`: nothing for a method without a bucket; otherwise the
     * first route of the bucket, in order, that matches.
     */
    method TriggerMatching(req: Request) returns (found: Option<Route>)
      ensures req.verb !in routes ==> found == None
      ensures found == Select(routes, req)
    {
      if req.verb in routes {
        var bucket := routes[req.verb];
        for i := 0 to |bucket|
          invariant forall j :: 0 <= j < i ==> !bucket[j].Accepts(req)
        {
          var matched := bucket[i].TriggerMatching(req);
          if matched {
            return Some(bucket[i]);
          }
        }
      }
      return None;
    }

    /**
     * `RegisterRoute`: sets the route's method, runs the validators under
     * "method" and then "path", stopping at the first failure, which becomes
     * the route's error; the route is appended to its method's bucket
     * whether or not it passed.
     */
    method RegisterRoute(methodName: string, route: Route)
      modifies this`routes, route`methodName, route`err
      ensures route.methodName == methodName
      ensures route.err == match FirstFailure(validators, ValidatorKeys, methodName, route.ms)
                           case Some(e) => Some(BadRoute(e))
                           case None => old(route.err)
      ensures routes == old(routes)[methodName := Bucket(old(routes), methodName) + [route]]
    {
      route.methodName := methodName;
      var keys := ValidatorKeys;
      for i := 0 to |keys|
        invariant route.methodName == methodName && route.err == old(route.err) && routes == old(routes)
        invariant FirstFailure(validators, keys[..i], methodName, route.ms) == None
      {
        assert keys[..i + 1][..i] == keys[..i];
        if keys[i] in validators {
          var err := Validate(validators[keys[i]], route);
          if err.Some? {
            route.err := Some(BadRoute(err.value));
            assert keys[..i + 1] == keys[..i] + [keys[i]];
            FirstFailureSticks(validators, keys, i + 1, methodName, route.ms);
            break;
          }
        }
      }
      assert keys[..|keys|] == keys;
      routes := routes[methodName := Bucket(routes, methodName) + [route]];
    }

    /**
     * One step of `HasErrors`: the errors of bucket `k`'s routes, in order,
     * appended to those of the buckets visited before it.
     */
    method VisitBucket(ghost order: seq<string>, k: string, hasError0: bool, errs0: seq<Error>) returns (hasError: bool, errs: seq<Error>)
      requires forall k' :: k' in order ==> k' in routes
      requires k in routes
      requires errs0 == ErrorsInOrder(routes, order)
      requires hasError0 <==> errs0 != []
      ensures errs == ErrorsInOrder(routes, order + [k])
      ensures hasError <==> errs != []
    {
      assert forall r :: r in RoutesIn(routes) ==> allocated(r);
      var found, bucketErrs := CollectErrors(routes[k]);
      hasError := hasError0 || found;
      errs := errs0 + bucketErrs;
      ErrorsInOrderSnoc(routes, order, k);
    }

    /**
     * `HasErrors`: visits every bucket (in the map's order, given back as
     * `order`) and every route in it, collecting the error of each route that
     * has one; the flag is set exactly when some error was collected.
     */
    method HasErrors() returns (hasError: bool, errs: seq<Error>, ghost order: seq<string>)
      ensures forall k :: k in routes <==> k in order
      ensures forall i, j :: 0 <= i < j < |order| ==> order[i] != order[j]
      ensures errs == ErrorsInOrder(routes, order)
      ensures hasError <==> errs != []
      ensures hasError <==> exists k, i :: k in routes && 0 <= i < |routes[k]| && routes[k][i].err.Some?
    {
      hasError := false;
      errs := [];
      order := [];
      var keys := routes.Keys;
      while keys != {}
        invariant keys <= routes.Keys
        invariant forall k :: k in order ==> k in routes && k !in keys
        invariant forall k :: k in routes ==> k in order || k in keys
        invariant forall i, j :: 0 <= i < j < |order| ==> order[i] != order[j]
        invariant errs == ErrorsInOrder(routes, order)
        invariant hasError <==> errs != []
        decreases keys
      {
        var k :| k in keys;
        hasError, errs := VisitBucket(order, k, hasError, errs);
        order := order + [k];
        keys := keys - {k};
      }
      ErrorsInOrderEmpty(routes, order);
    }

    /**
     * `SortRoutes`: sorts every route's matchers by ascending rank and every
     * bucket by descending kind, in place. A route registered more than once
     * is sorted more than once, which changes nothing after the first time.
     * Sorting matchers never touches a route's kind, so the matchers of all
     * buckets are sorted first and the buckets after.
     */
    method SortRoutes()
      modifies this`routes, RoutesIn(routes)`ms
      ensures routes.Keys == old(routes).Keys
      ensures forall k :: k in routes ==> routes[k] == SortByKind(old(routes)[k])
      ensures forall r :: r in RoutesIn(old(routes)) ==> r.ms == SortByRank(old(r.ms))
    {
      SortAllMatchers(routes);
      var sorted := SortBuckets(routes);
      routes := sorted;
    }

    /** `notFoundHandler`: the configured handler, or the standard 404 responder. */
    function NotFoundHandler(): (h: Handler)
      reads this`notFound
      ensures notFound.None? ==> h == NotFoundResponder
      ensures notFound.Some? ==> h == notFound.value
    {
      if notFound.None? then NotFoundResponder else notFound.value
    }

    /** The path that cleaning looks at: the escaped form when the router uses it. */
    function CleanedPath(req: Request): string
      reads this`useEncodedPath
    {
      if useEncodedPath then req.escapedPath else req.path
    }

    /** The request as routed: its path lower-cased unless the router is case-sensitive. */
    function Routed(req: Request): (r: Request)
      reads this`caseSensitiveURL
      ensures r.verb == req.verb && r.scheme == req.scheme && r.header == req.header
      ensures caseSensitiveURL ==> r == req
      ensures !caseSensitiveURL ==> IsLowerCase(r.path) && |r.path| == |req.path|
      ensures !caseSensitiveURL ==> forall i :: 0 <= i < |r.path| ==> r.path[i] == LowerChar(req.path[i])
      ensures r.escapedPath == req.escapedPath
    {
      ToLowerIsLowerCase(req.path);
      if caseSensitiveURL then req else req.(path := ToLower(req.path))
    }

    /**
     * The decision logic of `ServeHTTP`: a path that cleaning changes is
     * redirected (unless cleaning is skipped); otherwise the request is routed,
     * an unmatched one goes to the not-found handler, and a matched one is
     * dispatched to its handler, after a matched route without a handler has
     * been given the not-found handler for good. Every outcome but the
     * redirect carries the routed request, which is what the handler gets and
     * what the caller's request has become.
     */
    method ServeHTTP(req: Request) returns (d: Decision)
      modifies RoutesIn(routes)`handler
      ensures !skipClean && CleanPath(CleanedPath(req)) != CleanedPath(req) ==> d == Redirect(CleanPath(CleanedPath(req)))
      ensures d.Redirect? <==> !skipClean && CleanPath(CleanedPath(req)) != CleanedPath(req)
      ensures !d.Redirect? ==> d.req == Routed(req)
      ensures d.NotFound? <==> !(!skipClean && CleanPath(CleanedPath(req)) != CleanedPath(req)) && old(Select(routes, Routed(req))).None?
      ensures d.NotFound? ==> d.handler == NotFoundHandler()
      ensures d.Dispatch? || d.IndexPanic? ==> old(Select(routes, Routed(req))) == Some(d.route)
      ensures d.IndexPanic? <==> !d.Redirect? && !d.NotFound? && d.route.HasVars() && !IndexFits(d.route.varIndexies, Routed(req).path)
      ensures d.Dispatch? ==>
                d.route.handler == Some(d.handler) &&
                old(Select(routes, Routed(req))).Some? &&
                d.handler == old(HandlerOr(Select(routes, Routed(req)).value, NotFoundHandler())) &&
                d.vars == if d.route.HasVars() then Some(ExtractedVars(d.route.varIndexies, Routed(req).path)) else None
      ensures forall r :: r in RoutesIn(routes) && (!d.Dispatch? || r != d.route) ==> r.handler == old(r.handler)
    {
      if !skipClean {
        var path := req.path;
        if useEncodedPath {
          path := req.escapedPath;
        }
        var p := CleanPath(path);
        if p != path {
          return Redirect(p);
        }
      }
      var routed := req;
      if !caseSensitiveURL {
        routed := req.(path := ToLower(req.path));
      }
      d := ServeMatched(routed);
    }

    /**
     * `ServeHTTP` once the path needs no redirect: the routed request goes to
     * the not-found handler when no route accepts it, and to the route that
     * accepts it first otherwise.
     */
    method ServeMatched(routed: Request) returns (d: Decision)
      modifies RoutesIn(routes)`handler
      ensures !d.Redirect? && d.req == routed
      ensures d.NotFound? <==> old(Select(routes, routed)).None?
      ensures d.NotFound? ==> d.handler == NotFoundHandler()
      ensures d.Dispatch? || d.IndexPanic? ==> old(Select(routes, routed)) == Some(d.route)
      ensures d.IndexPanic? <==> !d.NotFound? && d.route.HasVars() && !IndexFits(d.route.varIndexies, routed.path)
      ensures d.Dispatch? ==>
                d.route.handler == Some(d.handler) &&
                old(Select(routes, routed)).Some? &&
                d.handler == old(HandlerOr(Select(routes, routed).value, NotFoundHandler())) &&
                d.vars == if d.route.HasVars() then Some(ExtractedVars(d.route.varIndexies, routed.path)) else None
      ensures forall r :: r in RoutesIn(routes) && (!d.Dispatch? || r != d.route) ==> r.handler == old(r.handler)
    {
      var route := TriggerMatching(routed);
      if route.None? {
        return NotFound(NotFoundHandler(), routed);
      }
      SelectIsFirstAccepting(routes, routed);
      d := DispatchTo(route.value, routed);
    }

    /**
     * The end of `ServeHTTP` once a route is matched: extracts its variables
     * when it has any, installs the not-found handler on a route without a
     * handler, and hands the request to the route's handler.
     */
    method DispatchTo(r: Route, routed: Request) returns (d: Decision)
      requires r.err.None?
      modifies r`handler
      ensures (d.Dispatch? || d.IndexPanic?) && d.route == r && d.req == routed
      ensures d.IndexPanic? <==> r.HasVars() && !IndexFits(r.varIndexies, routed.path)
      ensures d.IndexPanic? ==> r.handler == old(r.handler)
      ensures d.Dispatch? ==>
                r.handler == Some(d.handler) &&
                d.handler == old(HandlerOr(r, NotFoundHandler())) &&
                d.vars == if r.HasVars() then Some(ExtractedVars(r.varIndexies, routed.path)) else None
    {
      var vars: Option<map<string, string>> := None;
      if r.HasVars() {
        if !IndexFits(r.varIndexies, routed.path) {
          return IndexPanic(r, routed);
        }
        var extracted := r.ExtractVars(routed.path);
        vars := Some(extracted);
      }
      if r.handler.None? {
        r.Handler(NotFoundHandler());
      }
      return Dispatch(r, r.handler.value, vars, routed);
    }
  }

  /** Once the first failure is found, looking at more keys returns it unchanged. */
  lemma {:induction false} FirstFailureSticks(validators: map<string, Validator>, keys: seq<string>, i: nat, methodName: string, ms: seq<Matcher>)
    requires i <= |keys|
    requires FirstFailure(validators, keys[..i], methodName, ms).Some?
    ensures FirstFailure(validators, keys, methodName, ms) == FirstFailure(validators, keys[..i], methodName, ms)
  {
    if i < |keys| {
      assert keys[..|keys| - 1][..i] == keys[..i];
      FirstFailureSticks(validators, keys[..|keys| - 1], i, methodName, ms);
    } else {
      assert keys[..i] == keys;
    }
  }
}
