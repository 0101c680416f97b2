/**
 * validator.go: the checks a route must pass when it is registered. A
 * validator only reads the route's method name and matchers.
 */
module Validators {
  import opened Wrappers
  import opened Errors
  import opened Matchers
  import opened Routes

  /** The eight standard methods of `net/http` that the method validator accepts. */
  const Methods: set<string> := {"GET", "POST", "PATCH", "DELETE", "HEAD", "PUT", "OPTIONS", "CONNECT"}

  /**
   * A validator: `MethodValidator` holds the set of accepted method names,
   * `PathMatcherValidator` has no state.
   */
  datatype Validator = MethodValidator(allowed: set<string>) | PathMatcherValidator

  /** `newMethodValidator`: the method validator over the standard methods. */
  function NewMethodValidator(): (v: Validator)
    ensures v.MethodValidator? && v.allowed == Methods
  {
    MethodValidator(Methods)
  }

  /** Some matcher of the list has path rank. */
  predicate HasPathMatcher(ms: seq<Matcher>)
  {
    exists i :: 0 <= i < |ms| && RankOf(ms[i]) == RankPath
  }

  /**
   * The verdict of a validator on a route with this method name and these
   * matchers: no error when the route passes, the validator's error otherwise.
   */
  function Verdict(v: Validator, methodName: string, ms: seq<Matcher>): (r: Option<Error>)
    ensures v.MethodValidator? ==> (r.None? <==> methodName in v.allowed)
    ensures v.PathMatcherValidator? ==> (r.None? <==> HasPathMatcher(ms))
    ensures r.Some? ==> r.value == if v.MethodValidator? then BadMethod(methodName) else MissingPath
  {
    match v
    case MethodValidator(allowed) =>
      if methodName in allowed then None else Some(BadMethod(methodName))
    case PathMatcherValidator =>
      if HasPathMatcher(ms) then None else Some(MissingPath)
  }

  /**
   * `Validate`: the method validator looks the route's method name up in its
   * set; the path validator scans the matchers and stops at the first one of
   * path rank. The route is only read.
   */
  method Validate(v: Validator, r: Route) returns (err: Option<Error>)
    ensures err == Verdict(v, r.methodName, r.ms)
  {
    match v
    case MethodValidator(allowed) =>
      if r.methodName !in allowed {
        return Some(BadMethod(r.methodName));
      }
      return None;
    case PathMatcherValidator =>
      for i := 0 to |r.ms|
        invariant forall j :: 0 <= j < i ==> RankOf(r.ms[j]) != RankPath
      {
        if RankOf(r.ms[i]) == RankPath {
          return None;
        }
      }
      return Some(MissingPath);
  }

  /**
   * The standard method validator accepts exactly the eight method names,
   * spelt in upper case, and rejects any other name with an error carrying it.
   */
  lemma MethodValidatorAcceptsStandardMethods(methodName: string, ms: seq<Matcher>)
    ensures Verdict(NewMethodValidator(), methodName, ms).None? <==>
              methodName == "GET" || methodName == "POST" || methodName == "PATCH" || methodName == "DELETE" ||
              methodName == "HEAD" || methodName == "PUT" || methodName == "OPTIONS" || methodName == "CONNECT"
    ensures Verdict(NewMethodValidator(), methodName, ms).Some? ==>
              Verdict(NewMethodValidator(), methodName, ms) == Some(BadMethod(methodName))
  {
  }

  /** A misspelt method and a lower-case one are both rejected. */
  lemma MethodValidatorRejectsVariants(ms: seq<Matcher>)
    ensures Verdict(NewMethodValidator(), "GGET", ms) == Some(BadMethod("GGET"))
    ensures Verdict(NewMethodValidator(), "get", ms) == Some(BadMethod("get"))
  {
    assert "GGET" != "GET" && "GGET" != "POST" && "GGET" != "PATCH" && "GGET" != "DELETE";
    assert "GGET" != "HEAD" && "GGET" != "PUT" && "GGET" != "OPTIONS" && "GGET" != "CONNECT";
    assert "get"[0] != "GET"[0];
  }

  /**
   * The path validator passes a route as soon as one matcher has path rank,
   * wherever it stands, and fails a route without matchers.
   */
  lemma PathValidatorNeedsPathMatcher(ms: seq<Matcher>, m: Matcher, ms': seq<Matcher>)
    ensures Verdict(PathMatcherValidator, "", []) == Some(MissingPath)
    ensures RankOf(m) == RankPath ==> Verdict(PathMatcherValidator, "", ms + [m] + ms') == None
    ensures Verdict(PathMatcherValidator, "", ms + ms') == None ==> Verdict(PathMatcherValidator, "", ms + [m] + ms') == None
  {
    var all := ms + [m] + ms';
    assert all[|ms|] == m;
    if HasPathMatcher(ms + ms') {
      var i :| 0 <= i < |ms + ms'| && RankOf((ms + ms')[i]) == RankPath;
      if i < |ms| {
        assert all[i] == (ms + ms')[i];
      } else {
        assert all[i + 1] == (ms + ms')[i];
      }
    }
  }
}
