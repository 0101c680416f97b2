/**
 * route.go: a route is a conjunction of matchers plus its name, path, kind,
 * handler and variable index, configured by builder calls under a sticky
 * error: once a build error is recorded, the builders that add matchers or a
 * handler do nothing, and the route never matches.
 */
module Routes {
  import opened Wrappers
  import opened Errors
  import opened Text
  import opened Http
  import opened Helper
  import opened Matchers

  /** The kind of a route's path, in route.go's order: normal, vars, regex. */
  datatype Kind = Normal | Vars | Regex

  function KindOrder(k: Kind): nat
  {
    match k
    case Normal => 0
    case Vars => 1
    case Regex => 2
  }

  /** The kind `Path` gives a template: regex if it holds `#`, else vars if it holds `:`, else normal. */
  function TemplateKind(path: string): Kind
  {
    if ContainsRegex(path) then Regex else if ContainsVars(path) then Vars else Normal
  }

  /** The path matcher `Path` builds for a template of each kind. */
  function TemplateMatcher(path: string, compiled: string -> bool): Matcher
  {
    match TemplateKind(path)
    case Regex => PathRegexMatcher(path, compiled)
    case Vars => PathVarsMatcher(path, compiled)
    case Normal => PathMatcher(path)
  }

  /** The kind chosen for a template is its only classification, by the sentinels in priority order. */
  lemma TemplateKindClassifies(path: string, compiled: string -> bool)
    ensures TemplateKind(path) == Regex <==> '#' in path
    ensures TemplateKind(path) == Vars <==> '#' !in path && ':' in path
    ensures TemplateKind(path) == Normal <==> '#' !in path && ':' !in path
    ensures RankOf(TemplateMatcher(path, compiled)) == RankPath
  {
  }

  // ---------------------------------------------------------------------
  // The conjunction of matchers
  // ---------------------------------------------------------------------

  /** Every matcher in the list accepts the request. */
  predicate AllMatch(ms: seq<Matcher>, req: Request)
  {
    forall i :: 0 <= i < |ms| ==> Match(ms[i], req)
  }

  /** Reordering the matchers does not change whether they all accept. */
  lemma AllMatchIgnoresOrder(ms: seq<Matcher>, ms': seq<Matcher>, req: Request)
    requires multiset(ms) == multiset(ms')
    ensures AllMatch(ms, req) <==> AllMatch(ms', req)
  {
    if AllMatch(ms, req) {
      forall i | 0 <= i < |ms'|
        ensures Match(ms'[i], req)
      {
        assert ms'[i] in multiset(ms');
        var j :| 0 <= j < |ms| && ms[j] == ms'[i];
      }
    }
    if AllMatch(ms', req) {
      forall i | 0 <= i < |ms|
        ensures Match(ms[i], req)
      {
        assert ms[i] in multiset(ms);
        var j :| 0 <= j < |ms'| && ms'[j] == ms[i];
      }
    }
  }

  // ---------------------------------------------------------------------
  // The matcher sort (`matchers.Less`): ascending rank
  // ---------------------------------------------------------------------

  /** `matchers.Less`: a matcher goes before another of higher rank. */
  predicate RankLess(a: Matcher, b: Matcher): (less: bool)
    ensures less <==> (RankOf(a) == RankAny && RankOf(b) != RankAny) || (RankOf(a) == RankPath && RankOf(b) == RankScheme)
  {
    RankOrder(RankOf(a)) < RankOrder(RankOf(b))
  }

  /** What `sort.Sort` promises: no matcher is less than one before it. */
  predicate RankOrdered(ms: seq<Matcher>)
  {
    forall i, j :: 0 <= i < j < |ms| ==> !RankLess(ms[j], ms[i])
  }

  /** The matchers of one rank, in their order. */
  function WithRank(ms: seq<Matcher>, r: Rank): seq<Matcher>
  {
    if ms == [] then []
    else (if RankOf(ms[0]) == r then [ms[0]] else []) + WithRank(ms[1..], r)
  }

  /**
   * The matcher list after sorting by rank. `sort.Sort` is not stable; the
   * model takes the outcome that keeps matchers of equal rank in their order.
   */
  function SortByRank(ms: seq<Matcher>): seq<Matcher>
  {
    WithRank(ms, RankAny) + WithRank(ms, RankPath) + WithRank(ms, RankScheme)
  }

  /** The matchers selected for a rank have that rank. */
  lemma {:induction false} WithRankHasRank(ms: seq<Matcher>, r: Rank)
    ensures forall i :: 0 <= i < |WithRank(ms, r)| ==> RankOf(WithRank(ms, r)[i]) == r
  {
    if ms != [] {
      WithRankHasRank(ms[1..], r);
    }
  }

  lemma {:induction false} WithRankPartitions(ms: seq<Matcher>)
    ensures multiset(WithRank(ms, RankAny)) + multiset(WithRank(ms, RankPath)) + multiset(WithRank(ms, RankScheme))
            == multiset(ms)
  {
    if ms != [] {
      WithRankPartitions(ms[1..]);
      assert ms == [ms[0]] + ms[1..];
    }
  }

  /** Sorting by rank yields a permutation of the list in non-decreasing rank. */
  lemma SortByRankSortsAndPermutes(ms: seq<Matcher>)
    ensures RankOrdered(SortByRank(ms))
    ensures multiset(SortByRank(ms)) == multiset(ms)
  {
    WithRankPartitions(ms);
    WithRankHasRank(ms, RankAny);
    WithRankHasRank(ms, RankPath);
    WithRankHasRank(ms, RankScheme);
    var a, p, s := WithRank(ms, RankAny), WithRank(ms, RankPath), WithRank(ms, RankScheme);
    var out := SortByRank(ms);
    forall i, j | 0 <= i < j < |out|
      ensures !RankLess(out[j], out[i])
    {
      assert out == a + p + s;
      if i < |a| {
        assert RankOf(out[i]) == RankAny;
      } else if i < |a| + |p| {
        assert RankOf(out[i]) == RankPath;
        assert out[j] == if j < |a| + |p| then p[j - |a|] else s[j - |a| - |p|];
      } else {
        assert RankOf(out[i]) == RankScheme && RankOf(out[j]) == RankScheme;
      }
    }
  }

  /** Selecting one rank distributes over concatenation. */
  lemma {:induction false} WithRankAppend(a: seq<Matcher>, b: seq<Matcher>, r: Rank)
    ensures WithRank(a + b, r) == WithRank(a, r) + WithRank(b, r)
  {
    if a == [] {
      assert a + b == b;
    } else {
      var ab := a + b;
      assert ab[0] == a[0];
      assert ab[1..] == a[1..] + b;
      var head := if RankOf(a[0]) == r then [a[0]] else [];
      WithRankAppend(a[1..], b, r);
      calc {
        WithRank(ab, r);
        head + WithRank(a[1..] + b, r);
        head + (WithRank(a[1..], r) + WithRank(b, r));
        (head + WithRank(a[1..], r)) + WithRank(b, r);
      }
    }
  }

  /** Selecting one rank from matchers of one rank keeps them all or none. */
  lemma {:induction false} WithRankOfOneRank(ms: seq<Matcher>, r: Rank, r': Rank)
    requires forall i :: 0 <= i < |ms| ==> RankOf(ms[i]) == r
    ensures WithRank(ms, r') == if r == r' then ms else []
  {
    if ms != [] {
      WithRankOfOneRank(ms[1..], r, r');
      assert [ms[0]] + ms[1..] == ms;
    }
  }

  /** Sorting keeps the matchers of each rank, in their order. */
  lemma WithRankOfSorted(ms: seq<Matcher>, r: Rank)
    ensures WithRank(SortByRank(ms), r) == WithRank(ms, r)
  {
    var a, p, s := WithRank(ms, RankAny), WithRank(ms, RankPath), WithRank(ms, RankScheme);
    WithRankHasRank(ms, RankAny);
    WithRankHasRank(ms, RankPath);
    WithRankHasRank(ms, RankScheme);
    WithRankAppend(a + p, s, r);
    WithRankAppend(a, p, r);
    WithRankOfOneRank(a, RankAny, r);
    WithRankOfOneRank(p, RankPath, r);
    WithRankOfOneRank(s, RankScheme, r);
  }

  /** Sorting an already sorted list changes nothing. */
  lemma SortByRankIdempotent(ms: seq<Matcher>)
    ensures SortByRank(SortByRank(ms)) == SortByRank(ms)
  {
    WithRankOfSorted(ms, RankAny);
    WithRankOfSorted(ms, RankPath);
    WithRankOfSorted(ms, RankScheme);
  }

  /** Sorting the matchers never changes whether a route accepts a request. */
  lemma SortByRankKeepsMatching(ms: seq<Matcher>, req: Request)
    ensures AllMatch(SortByRank(ms), req) <==> AllMatch(ms, req)
  {
    SortByRankSortsAndPermutes(ms);
    AllMatchIgnoresOrder(SortByRank(ms), ms, req);
  }

  // ---------------------------------------------------------------------
  // The variable index of a template and variable extraction
  // ---------------------------------------------------------------------

  /** Go's `string(n)` for an integer n: the character with code point n, or U+FFFD. */
  function CodePoint(n: nat): string
  {
    if n < 0xD800 || (0xE000 <= n && n <= 0x10FFFF) then [n as char] else ['�']
  }

  /** The index map and the shared repeat counter of `extractVarsIndexies`. */
  datatype IndexState = IndexState(indexies: map<string, nat>, count: nat)

  /**
   * The state after the first k segments: a segment starting with the prefix
   * is recorded under its own text the first time that text is seen, and
   * under its text followed by `string(count)` on a repeat, after the counter
   * shared by all repeats goes up by one.
   */
  function IndexSegments(segs: seq<string>, prefix: string, k: nat): IndexState
    requires k <= |segs|
  {
    if k == 0 then IndexState(map[], 0)
    else
      var st := IndexSegments(segs, prefix, k - 1);
      var v := segs[k - 1];
      if !HasPrefix(v, prefix) then st
      else if v !in st.indexies then IndexState(st.indexies[v := k - 1], st.count)
      else IndexState(st.indexies[v + CodePoint(st.count + 1) := k - 1], st.count + 1)
  }

  /** The variable index of a template: its `/`-segments indexed by position. */
  function VarIndex(path: string, prefix: string): map<string, nat>
  {
    var segs := Split(path, '/');
    IndexSegments(segs, prefix, |segs|).indexies
  }

  /** Every stored index points at a segment that starts with the prefix. */
  lemma {:induction false} IndexPointsAtVariables(segs: seq<string>, prefix: string, k: nat)
    requires k <= |segs|
    ensures forall key :: key in IndexSegments(segs, prefix, k).indexies ==>
              IndexSegments(segs, prefix, k).indexies[key] < k &&
              HasPrefix(segs[IndexSegments(segs, prefix, k).indexies[key]], prefix)
  {
    if k > 0 {
      IndexPointsAtVariables(segs, prefix, k - 1);
    }
  }

  /** The text of every segment that starts with the prefix is a key. */
  lemma {:induction false} IndexCoversVariables(segs: seq<string>, prefix: string, k: nat)
    requires k <= |segs|
    ensures forall i :: 0 <= i < k && HasPrefix(segs[i], prefix) ==> segs[i] in IndexSegments(segs, prefix, k).indexies
  {
    if k > 0 {
      IndexCoversVariables(segs, prefix, k - 1);
    }
  }

  /**
   * When no two variable segments share a text, each one is recorded under
   * its own text at its own position, and nothing else is recorded.
   */
  lemma {:induction false} IndexOfDistinctVariables(segs: seq<string>, prefix: string, k: nat)
    requires k <= |segs|
    requires forall i, j :: 0 <= i < j < k && HasPrefix(segs[i], prefix) && HasPrefix(segs[j], prefix) ==> segs[i] != segs[j]
    ensures IndexSegments(segs, prefix, k).count == 0
    ensures forall i :: 0 <= i < k && HasPrefix(segs[i], prefix) ==>
              segs[i] in IndexSegments(segs, prefix, k).indexies && IndexSegments(segs, prefix, k).indexies[segs[i]] == i
    ensures forall key :: key in IndexSegments(segs, prefix, k).indexies ==>
              exists i :: 0 <= i < k && HasPrefix(segs[i], prefix) && segs[i] == key
  {
    if k > 0 {
      IndexOfDistinctVariables(segs, prefix, k - 1);
      if HasPrefix(segs[k - 1], prefix) {
        assert segs[k - 1] !in IndexSegments(segs, prefix, k - 1).indexies;
      }
    }
  }

  /** Each variable index points into the request path's segments. */
  predicate IndexFits(varIndexies: map<string, nat>, path: string)
  {
    forall key :: key in varIndexies ==> varIndexies[key] < |Split(path, '/')|
  }

  /** The variables of a request path: each key, mapped to the segment at its index. */
  function ExtractedVars(varIndexies: map<string, nat>, path: string): map<string, string>
    requires IndexFits(varIndexies, path)
  {
    map key | key in varIndexies :: Split(path, '/')[varIndexies[key]]
  }

  /** `vars.Get`: the stored value, or the empty string for a missing key. */
  function GetVar(vars: map<string, string>, key: string): (value: string)
    ensures key in vars ==> value == vars[key]
    ensures key !in vars ==> value == ""
  {
    if key in vars then vars[key] else ""
  }

  /** A separator between two plain pieces splits the string into those pieces. */
  lemma SplitPair(b: string, c: string)
    requires '/' !in b && '/' !in c
    ensures Split(b + ['/'] + c, '/') == [b, c]
  {
    SplitWithoutSeparator(c, '/');
    SplitAtSeparator(b, c, '/');
  }

  /** A leading separator adds an empty first piece. */
  lemma SplitRooted(s: string)
    ensures Split(['/'] + s, '/') == [""] + Split(s, '/')
  {
    SplitAtSeparator([], s, '/');
    assert [] + ['/'] + s == ['/'] + s;
  }

  /** The rooted template `/a/b/c`, grouped from the right. */
  lemma RootedTemplateShape(a: string, b: string, c: string)
    ensures "/" + a + "/" + b + "/" + c == ['/'] + (a + ['/'] + (b + ['/'] + c))
  {
  }

  /** A rooted template of three plain segments splits into the empty root piece and the segments. */
  lemma SplitRootedTemplate(a: string, b: string, c: string)
    requires '/' !in a && '/' !in b && '/' !in c
    ensures Split("/" + a + "/" + b + "/" + c, '/') == ["", a, b, c]
  {
    var bc := b + ['/'] + c;
    var abc := a + ['/'] + bc;
    RootedTemplateShape(a, b, c);
    SplitPair(b, c);
    SplitAtSeparator(a, bc, '/');
    SplitRooted(abc);
  }

  /**
   * A template `/a/b/v` whose only variable segment is the last one, such as
   * `/api/user/:number`, records that variable at segment 3.
   */
  lemma VarIndexOfLastSegment(a: string, b: string, v: string)
    requires '/' !in a && '/' !in b && '/' !in v
    requires !HasPrefix(a, ":") && !HasPrefix(b, ":") && HasPrefix(v, ":")
    ensures VarIndex("/" + a + "/" + b + "/" + v, ":") == map[v := 3]
  {
    SplitRootedTemplate(a, b, v);
    var segs := ["", a, b, v];
    assert !HasPrefix(segs[0], ":");
    assert IndexSegments(segs, ":", 1) == IndexState(map[], 0);
    assert IndexSegments(segs, ":", 2) == IndexState(map[], 0);
    assert IndexSegments(segs, ":", 3) == IndexState(map[], 0);
  }

  /**
   * With that index, the request path `/a/b/x`, such as `/api/user/42`,
   * yields the variable v = x.
   */
  lemma VarOfLastSegment(a: string, b: string, v: string, x: string)
    requires '/' !in a && '/' !in b && '/' !in x
    ensures IndexFits(map[v := 3], "/" + a + "/" + b + "/" + x)
    ensures GetVar(ExtractedVars(map[v := 3], "/" + a + "/" + b + "/" + x), v) == x
  {
    SplitRootedTemplate(a, b, x);
  }

  /**
   * A repeated placeholder v, as in `/:number/:number`, is recorded under v
   * at 1 and under v followed by the character with code point 1 (Go's
   * `string(1)`) at 2; v followed by the digit "1" is not a key.
   */
  lemma RepeatedPlaceholderKey(v: string)
    requires '/' !in v && HasPrefix(v, ":")
    ensures VarIndex("/" + v + "/" + v, ":") == map[v := 1, v + [1 as char] := 2]
    ensures v + "1" !in VarIndex("/" + v + "/" + v, ":")
  {
    SplitWithoutSeparator(v, '/');
    SplitAtSeparator(v, v, '/');
    assert v + "/" + v == v + ['/'] + v;
    SplitAtSeparator("", v + "/" + v, '/');
    assert "/" + v + "/" + v == "" + ['/'] + (v + "/" + v);
    var segs := ["", v, v];
    assert Split("/" + v + "/" + v, '/') == segs;
    assert !HasPrefix(segs[0], ":");
    assert IndexSegments(segs, ":", 1) == IndexState(map[], 0);
    assert IndexSegments(segs, ":", 2) == IndexState(map[v := 1], 0);
    assert CodePoint(1) == [1 as char];
    assert (v + "1")[|v|] != (v + [1 as char])[|v|];
    assert |v + "1"| != |v|;
  }

  /**
   * The repeat counter is shared by all placeholders, not kept per name: in
   * `/:a/:a/:b/:b` the repeat of b is the second repeat overall, so it is
   * recorded under b followed by the code point 2, and b followed by the code
   * point 1 (what a counter per name would give) is not a key.
   */
  lemma RepeatCounterIsShared(a: string, b: string)
    requires HasPrefix(a, ":") && HasPrefix(b, ":")
    requires a != b && b != a + [1 as char] && a != b + [1 as char]
    ensures IndexSegments(["", a, a, b, b], ":", 5) ==
              IndexState(map[a := 1, a + [1 as char] := 2, b := 3, b + [2 as char] := 4], 2)
    ensures b + [1 as char] !in IndexSegments(["", a, a, b, b], ":", 5).indexies
  {
    var segs := ["", a, a, b, b];
    assert !HasPrefix(segs[0], ":");
    assert IndexSegments(segs, ":", 1) == IndexState(map[], 0);
    assert IndexSegments(segs, ":", 2) == IndexState(map[a := 1], 0);
    assert CodePoint(1) == [1 as char];
    assert IndexSegments(segs, ":", 3) == IndexState(map[a := 1, a + [1 as char] := 2], 1);
    assert IndexSegments(segs, ":", 4) == IndexState(map[a := 1, a + [1 as char] := 2, b := 3], 1);
    assert CodePoint(2) == [2 as char];
    assert (b + [1 as char])[..|b|] == b && (a + [1 as char])[..|a|] == a;
    assert b + [1 as char] != b + [2 as char] by {
      assert (b + [1 as char])[|b|] != (b + [2 as char])[|b|];
    }
  }

  // ---------------------------------------------------------------------
  // The route
  // ---------------------------------------------------------------------

  class Route {
    /** The kind of the path (normal, vars or regex), which the router sorts on. */
    var kind: Kind
    var handler: Option<Handler>
    /** The matchers, all of which must accept. */
    var ms: seq<Matcher>
    /** The name; the empty string until one is set. */
    var name: string
    /** The sticky build error. */
    var err: Option<Error>
    /** The method the route is registered under. */
    var methodName: string
    /** The path template; the empty string until one is set. */
    var path: string
    /** Variable key to segment index, for vars templates. */
    var varIndexies: map<string, nat>

    /** An empty route, as the route factory creates it. */
    constructor ()
      ensures kind == Normal && handler == None && ms == [] && name == "" && err == None
      ensures methodName == "" && path == "" && varIndexies == map[]
    {
      kind := Normal;
      handler := None;
      ms := [];
      name := "";
      err := None;
      methodName := "";
      path := "";
      varIndexies := map[];
    }

    /** The route accepts a request: it has no build error and every matcher accepts. */
    predicate Accepts(req: Request)
      reads this`err, this`ms
    {
      err.None? && AllMatch(ms, req)
    }

    /**
     * `triggerMatching`: no match once the route has an error, whatever the
     * matchers say; otherwise a match exactly when every matcher accepts,
     * stopping at the first that does not.
     */
    method TriggerMatching(req: Request) returns (matched: bool)
      ensures matched <==> err.None? && forall i :: 0 <= i < |ms| ==> Match(ms[i], req)
      ensures matched == Accepts(req)
    {
      if err.Some? {
        return false;
      }
      for i := 0 to |ms|
        invariant forall j :: 0 <= j < i ==> Match(ms[j], req)
      {
        if !Match(ms[i], req) {
          return false;
        }
      }
      return true;
    }

    /** `Handler`: sets the handler, unless the route has an error. */
    method Handler(h: Handler)
      modifies this`handler
      ensures handler == if err.None? then Some(h) else old(handler)
    {
      if err.None? {
        handler := Some(h);
      }
    }

    /**
     * `Name`: a route that already has a name gets a build error and keeps
     * its name; otherwise the name is stored unless the route has an error.
     */
    method Name(n: string)
      modifies this`name, this`err
      ensures old(name) != "" ==> err == Some(NameTaken(old(name), n)) && name == old(name)
      ensures old(name) == "" ==> err == old(err) && name == if old(err).None? then n else old(name)
    {
      if name != "" {
        err := Some(NameTaken(name, n));
        return;
      }
      if err.None? {
        name := n;
      }
    }

    /** `addMatcher`: appends the matcher, unless the route has an error. */
    method AddMatcher(m: Matcher)
      modifies this`ms
      ensures ms == if err.None? then old(ms) + [m] else old(ms)
    {
      if err.None? {
        ms := ms + [m];
      }
    }

    /**
     * `Path`: a second path sets the build error; either way the template's
     * kind and the template are stored, a vars template gets its variable
     * index, and the path matcher is appended only if the route has no error.
     * `compiled` is what the regular-expression compiler makes of the template.
     */
    method Path(p: string, compiled: string -> bool)
      modifies this`err, this`kind, this`path, this`ms, this`varIndexies
      ensures err == if old(path) != "" then Some(PathTaken(p)) else old(err)
      ensures kind == TemplateKind(p) && path == p
      ensures varIndexies == if kind == Vars then VarIndex(p, ":") else old(varIndexies)
      ensures ms == if err.None? then old(ms) + [TemplateMatcher(p, compiled)] else old(ms)
    {
      if path != "" {
        err := Some(PathTaken(p));
      }
      var matcher: Matcher;
      if ContainsRegex(p) {
        matcher := PathRegexMatcher(p, compiled);
        kind := Regex;
      } else if ContainsVars(p) {
        matcher := PathVarsMatcher(p, compiled);
        ExtractVarsIndexies(":", p);
        kind := Vars;
      } else {
        matcher := PathMatcher(p);
        kind := Normal;
      }
      path := p;
      AddMatcher(matcher);
    }

    /** `extractVarsIndexies`: records every segment starting with the prefix by position. */
    method ExtractVarsIndexies(prefix: string, p: string)
      modifies this`varIndexies
      ensures varIndexies == VarIndex(p, prefix)
    {
      var urlSeg := Split(p, '/');
      var indexies: map<string, nat> := map[];
      var count := 0;
      for k := 0 to |urlSeg|
        invariant IndexSegments(urlSeg, prefix, k) == IndexState(indexies, count)
      {
        var v := urlSeg[k];
        if HasPrefix(v, prefix) {
          if v !in indexies {
            indexies := indexies[v := k];
            continue;
          }
          count := count + 1;
          indexies := indexies[v + CodePoint(count) := k];
        }
      }
      varIndexies := indexies;
    }

    /** `hasVars`: the route has a non-empty variable index. */
    predicate HasVars(): (has: bool)
      reads this`varIndexies
      ensures has <==> exists key :: key in varIndexies
    {
      |varIndexies| != 0
    }

    /**
     * `extractVars`: each key of the variable index, mapped to the request
     * path's segment at the stored index. The index must fit the path (Go
     * would panic on an index out of range).
     */
    method ExtractVars(reqPath: string) returns (vars: map<string, string>)
      requires IndexFits(varIndexies, reqPath)
      ensures vars.Keys == varIndexies.Keys
      ensures forall key :: key in vars ==> vars[key] == Split(reqPath, '/')[varIndexies[key]]
      ensures vars == ExtractedVars(varIndexies, reqPath)
    {
      var urlSeg := Split(reqPath, '/');
      vars := map[];
      var todo := varIndexies.Keys;
      while todo != {}
        invariant todo <= varIndexies.Keys
        invariant vars.Keys == varIndexies.Keys - todo
        invariant forall key :: key in vars ==> vars[key] == urlSeg[varIndexies[key]]
        decreases todo
      {
        var k :| k in todo;
        vars := vars[k := urlSeg[varIndexies[k]]];
        todo := todo - {k};
      }
    }

    /** `Schemes`: adds a matcher for the lower-cased schemes, unless the route has an error. */
    method Schemes(schemes: seq<string>)
      modifies this`ms
      ensures ms == if err.None? then old(ms) + [SchemeMatcher(SchemeSet(schemes))] else old(ms)
    {
      var m := NewSchemeMatcher(schemes);
      AddMatcher(m);
    }

    /**
     * `Headers`: unless the route has an error, converts the key/value
     * arguments; an odd count becomes the route's error, otherwise the header
     * matcher is appended and the error stays clear.
     */
    method Headers(pairs: seq<string>)
      modifies this`err, this`ms
      ensures old(err).Some? ==> err == old(err) && ms == old(ms)
      ensures old(err).None? && |pairs| % 2 == 1 ==> err == Some(OddPairs(pairs)) && ms == old(ms)
      ensures old(err).None? && |pairs| % 2 == 0 ==>
                err == None && ConvertPairs(pairs, BuildExact, |pairs| / 2).Success? &&
                ms == old(ms) + [HeaderMatcher(ConvertPairs(pairs, BuildExact, |pairs| / 2).value)]
    {
      if err.None? {
        ConvertExactPairs(pairs, |pairs| / 2);
        var headers := ConvertStringsToMapString(IsEvenPairs, pairs);
        if headers.Failure? {
          err := Some(headers.error);
          AddMatcher(HeaderMatcher(map[]));
        } else {
          err := None;
          AddMatcher(HeaderMatcher(headers.value));
        }
      }
    }

    /**
     * Sorting the matcher list in place by `matchers.Less` (what the router
     * does with `GetMatchers`): the matchers in non-decreasing rank.
     */
    method SortMatchers()
      modifies this`ms
      ensures ms == SortByRank(old(ms))
    {
      ms := SortByRank(ms);
    }

    /** `MatcherFunc`: adds a custom matcher, unless the route has an error. */
    method MatcherFunc(f: Request -> bool)
      modifies this`ms
      ensures ms == if err.None? then old(ms) + [CustomMatcher(f)] else old(ms)
    {
      AddMatcher(CustomMatcher(f));
    }
  }
}
