/**
 * helper.go: the key/value argument check, the conversion of key/value
 * arguments into a map of comparators, header-map matching, and the lexical
 * classification of path templates.
 */
module Helper {
  import opened Wrappers
  import opened Errors
  import opened Http

  /**
   * `isEvenPairs`: the number of arguments, and an error exactly when that
   * number is odd.
   */
  function IsEvenPairs(pairs: seq<string>): (r: (nat, Option<Error>))
    ensures r.0 == |pairs|
    ensures r.1.Some? <==> |pairs| % 2 == 1
    ensures r.1.Some? ==> r.1.value == OddPairs(pairs)
  {
    var length := |pairs|;
    if length % 2 != 0 then (length, Some(OddPairs(pairs))) else (length, None)
  }

  /**
   * A configured header value. `Exact` is `stringComparison`; `Pattern` is a
   * compiled regular expression, kept as the predicate it decides.
   */
  datatype Comparison =
    | Exact(s: string)
    | Pattern(source: string, accepts: string -> bool)
  {
    predicate Compare(value: string): (equal: bool)
      ensures Exact? ==> (equal <==> value == s)
      ensures Pattern? ==> (equal <==> accepts(value))
    {
      match this
      case Exact(s) => s == value
      case Pattern(_, accepts) => accepts(value)
    }

    /** An empty exact value means "any value"; a compiled pattern is never empty. */
    predicate IsNotEmpty(): (nonEmpty: bool)
      ensures !nonEmpty <==> Exact? && |s| == 0
    {
      match this
      case Exact(s) => s != ""
      case Pattern(_, _) => true
    }
  }

  /** The pair-count check that the conversion is parameterised by. */
  type PairCheck = seq<string> -> (nat, Option<Error>)

  /** Builds the comparator for one configured value, or fails. */
  type ComparatorBuilder = string -> Result<Comparison, Error>

  /** The builder of `convertStringsToMapString`, which never fails. */
  function BuildExact(value: string): (r: Result<Comparison, Error>)
    ensures r.Success? && r.value == Exact(value)
    ensures r.value.Compare(value) && (r.value.IsNotEmpty() <==> value != "")
  {
    Success(Exact(value))
  }

  /** The key of the j-th pair. */
  function KeyAt(pairs: seq<string>, j: nat): string
    requires 2 * j < |pairs|
  {
    pairs[2 * j]
  }

  /** The value of the j-th pair. */
  function ValueAt(pairs: seq<string>, j: nat): string
    requires 2 * j + 1 < |pairs|
  {
    pairs[2 * j + 1]
  }

  /**
   * What the conversion loop has produced after its first k pairs: the map
   * from each key to its comparator, or the first builder error.
   */
  function ConvertPairs(pairs: seq<string>, build: ComparatorBuilder, k: nat): Result<map<string, Comparison>, Error>
    requires 2 * k <= |pairs|
  {
    if k == 0 then Success(map[])
    else
      match ConvertPairs(pairs, build, k - 1)
      case Failure(e) => Failure(e)
      case Success(m) =>
        match build(ValueAt(pairs, k - 1))
        case Failure(e) => Failure(e)
        case Success(c) => Success(m[KeyAt(pairs, k - 1) := c])
  }

  /** No later pair among the first k has the same key as pair j. */
  predicate IsLastOccurrence(pairs: seq<string>, j: nat, k: nat)
    requires j < k && 2 * k <= |pairs|
  {
    forall i :: j < i < k ==> KeyAt(pairs, i) != KeyAt(pairs, j)
  }

  /**
   * The conversion fails exactly when the builder fails on some value, and it
   * then returns the error of the first value it fails on.
   */
  lemma {:induction false} ConvertPairsFailure(pairs: seq<string>, build: ComparatorBuilder, k: nat)
    requires 2 * k <= |pairs|
    ensures ConvertPairs(pairs, build, k).Failure? <==>
              exists j :: 0 <= j < k && build(ValueAt(pairs, j)).Failure?
    ensures ConvertPairs(pairs, build, k).Failure? ==>
              exists j :: 0 <= j < k && build(ValueAt(pairs, j)) == Failure(ConvertPairs(pairs, build, k).error) &&
                          forall i :: 0 <= i < j ==> build(ValueAt(pairs, i)).Success?
  {
    if k > 0 {
      ConvertPairsFailure(pairs, build, k - 1);
      if ConvertPairs(pairs, build, k - 1).Success? && build(ValueAt(pairs, k - 1)).Failure? {
        assert forall i :: 0 <= i < k - 1 ==> build(ValueAt(pairs, i)).Success?;
      }
    }
  }

  /** Once the conversion has failed, converting more pairs returns the same failure. */
  lemma {:induction false} ConvertPairsFailureSticks(pairs: seq<string>, build: ComparatorBuilder, k: nat, k': nat)
    requires k <= k' && 2 * k' <= |pairs|
    requires ConvertPairs(pairs, build, k).Failure?
    ensures ConvertPairs(pairs, build, k') == ConvertPairs(pairs, build, k)
  {
    if k < k' {
      ConvertPairsFailureSticks(pairs, build, k, k' - 1);
    }
  }

  /** On success every value was built. */
  lemma {:induction false} ConvertPairsBuiltAll(pairs: seq<string>, build: ComparatorBuilder, k: nat)
    requires 2 * k <= |pairs|
    requires ConvertPairs(pairs, build, k).Success?
    ensures forall j :: 0 <= j < k ==> build(ValueAt(pairs, j)).Success?
  {
    if k > 0 {
      ConvertPairsBuiltAll(pairs, build, k - 1);
    }
  }

  /** On success the keys are exactly the keys of the pairs. */
  lemma {:induction false} ConvertPairsKeys(pairs: seq<string>, build: ComparatorBuilder, k: nat)
    requires 2 * k <= |pairs|
    requires ConvertPairs(pairs, build, k).Success?
    ensures forall key :: key in ConvertPairs(pairs, build, k).value <==>
              exists j :: 0 <= j < k && KeyAt(pairs, j) == key
  {
    if k > 0 {
      ConvertPairsKeys(pairs, build, k - 1);
      var m := ConvertPairs(pairs, build, k - 1).value;
      var last := KeyAt(pairs, k - 1);
      var m' := ConvertPairs(pairs, build, k).value;
      assert m'.Keys == m.Keys + {last};
      forall key
        ensures key in m' <==> exists j :: 0 <= j < k && KeyAt(pairs, j) == key
      {
        if key == last {
          assert KeyAt(pairs, k - 1) == key;
        } else if key in m' {
          var j :| 0 <= j < k - 1 && KeyAt(pairs, j) == key;
        }
      }
    }
  }

  /**
   * On success each key maps to the comparator built from the value of its
   * last pair: a later duplicate key overwrites an earlier one.
   */
  lemma {:induction false} ConvertPairsLastWins(pairs: seq<string>, build: ComparatorBuilder, k: nat)
    requires 2 * k <= |pairs|
    requires ConvertPairs(pairs, build, k).Success?
    ensures forall j :: 0 <= j < k && IsLastOccurrence(pairs, j, k) ==>
              KeyAt(pairs, j) in ConvertPairs(pairs, build, k).value &&
              build(ValueAt(pairs, j)) == Success(ConvertPairs(pairs, build, k).value[KeyAt(pairs, j)])
  {
    if k > 0 {
      ConvertPairsLastWins(pairs, build, k - 1);
      var m := ConvertPairs(pairs, build, k - 1).value;
      var last := KeyAt(pairs, k - 1);
      var m' := ConvertPairs(pairs, build, k).value;
      assert m' == m[last := build(ValueAt(pairs, k - 1)).value];
      forall j | 0 <= j < k && IsLastOccurrence(pairs, j, k)
        ensures KeyAt(pairs, j) in m' && build(ValueAt(pairs, j)) == Success(m'[KeyAt(pairs, j)])
      {
        if j < k - 1 {
          assert IsLastOccurrence(pairs, j, k - 1);
          assert last != KeyAt(pairs, j);
        }
      }
    }
  }

  /**
   * `genericConvertStringsToMap`: a failed pair-count check is returned as it
   * is; otherwise the pairs are converted in order, stopping at the first
   * builder error.
   */
  method GenericConvertStringsToMap(iep: PairCheck, build: ComparatorBuilder, pairs: seq<string>)
    returns (r: Result<map<string, Comparison>, Error>)
    requires iep(pairs).1.None? ==> iep(pairs).0 + iep(pairs).0 % 2 <= |pairs|
    ensures iep(pairs).1.Some? ==> r == Failure(iep(pairs).1.value)
    ensures iep(pairs).1.None? ==> r == ConvertPairs(pairs, build, (iep(pairs).0 + 1) / 2)
  {
    var (length, err) := iep(pairs);
    if err.Some? {
      return Failure(err.value);
    }
    var m: map<string, Comparison> := map[];
    var i := 0;
    while i < length
      invariant i % 2 == 0 && i <= length + 1
      invariant ConvertPairs(pairs, build, i / 2) == Success(m)
    {
      var cmp := build(pairs[i + 1]);
      if cmp.Failure? {
        ConvertPairsFailureSticks(pairs, build, i / 2 + 1, (length + 1) / 2);
        return Failure(cmp.error);
      }
      m := m[pairs[i] := cmp.value];
      i := i + 2;
    }
    return Success(m);
  }

  /** Exact comparators never fail to build, and each key gets its last value. */
  lemma {:induction false} ConvertExactPairs(pairs: seq<string>, k: nat)
    requires 2 * k <= |pairs|
    ensures ConvertPairs(pairs, BuildExact, k).Success?
    ensures forall j :: 0 <= j < k && IsLastOccurrence(pairs, j, k) ==>
              KeyAt(pairs, j) in ConvertPairs(pairs, BuildExact, k).value &&
              ConvertPairs(pairs, BuildExact, k).value[KeyAt(pairs, j)] == Exact(ValueAt(pairs, j))
  {
    ConvertPairsFailure(pairs, BuildExact, k);
    ConvertPairsLastWins(pairs, BuildExact, k);
  }

  /**
   * `convertStringsToMapString`: the conversion with exact comparators, which
   * fails only when the pair-count check does.
   */
  method ConvertStringsToMapString(iep: PairCheck, pairs: seq<string>)
    returns (r: Result<map<string, Comparison>, Error>)
    requires iep(pairs).1.None? ==> iep(pairs).0 + iep(pairs).0 % 2 <= |pairs|
    ensures r.Failure? <==> iep(pairs).1.Some?
    ensures iep(pairs).1.Some? ==> r.error == iep(pairs).1.value
    ensures r.Success? ==> r == ConvertPairs(pairs, BuildExact, (iep(pairs).0 + 1) / 2)
  {
    r := GenericConvertStringsToMap(iep, BuildExact, pairs);
    if iep(pairs).1.None? {
      ConvertExactPairs(pairs, (iep(pairs).0 + 1) / 2);
    }
  }

  /** The key looked up in the request map, canonicalised for headers. */
  function LookupKey(k: string, canonicalKey: bool): string
  {
    if canonicalKey then CanonicalHeaderKey(k) else k
  }

  /**
   * One configured entry holds: the key is present and, unless the comparator
   * is empty, one of its values satisfies the comparator.
   */
  predicate EntryHolds(c: Comparison, key: string, toCompare: map<string, seq<string>>)
  {
    key in toCompare && (c.IsNotEmpty() ==> exists v :: v in toCompare[key] && c.Compare(v))
  }

  /** Every configured entry holds. */
  predicate MapMatches(compare: map<string, Comparison>, toCompare: map<string, seq<string>>, canonicalKey: bool)
  {
    forall k :: k in compare ==> EntryHolds(compare[k], LookupKey(k, canonicalKey), toCompare)
  }

  /** With an exact comparator, an entry holds iff the key is present and the value is empty or listed. */
  lemma ExactEntryHolds(s: string, key: string, toCompare: map<string, seq<string>>)
    ensures EntryHolds(Exact(s), key, toCompare) <==> key in toCompare && (s == "" || s in toCompare[key])
  {
  }

  /**
   * `matchMap`: true exactly when every configured key is present in the
   * request map (after canonicalisation when asked) and, for a non-empty
   * comparator, at least one of that key's values satisfies it.
   */
  method MatchMap(compare: map<string, Comparison>, toCompare: map<string, seq<string>>, canonicalKey: bool)
    returns (ok: bool)
    ensures ok <==> MapMatches(compare, toCompare, canonicalKey)
  {
    var remaining := compare.Keys;
    while remaining != {}
      invariant remaining <= compare.Keys
      invariant forall k :: k in compare && k !in remaining ==> EntryHolds(compare[k], LookupKey(k, canonicalKey), toCompare)
      decreases remaining
    {
      var k :| k in remaining;
      var key := LookupKey(k, canonicalKey);
      if key !in toCompare {
        return false;
      }
      var values := toCompare[key];
      var v := compare[k];
      if v.IsNotEmpty() {
        var valueExists := false;
        var i := 0;
        while i < |values|
          invariant 0 <= i <= |values|
          invariant !valueExists
          invariant forall j :: 0 <= j < i ==> !v.Compare(values[j])
        {
          if v.Compare(values[i]) {
            valueExists := true;
            break;
          }
          i := i + 1;
        }
        if !valueExists {
          return false;
        }
      }
      remaining := remaining - {k};
    }
    return true;
  }

  /** `containsRegex`: the template holds the regular-expression sentinel `#`. */
  predicate ContainsRegex(path: string): (found: bool)
    ensures found <==> exists i :: 0 <= i < |path| && path[i] == '#'
  {
    '#' in path
  }

  /** `containsVars`: the template holds the variable prefix `:`. */
  predicate ContainsVars(path: string): (found: bool)
    ensures found <==> exists i :: 0 <= i < |path| && path[i] == ':'
  {
    ':' in path
  }
}
