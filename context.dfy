/**
 * context.go: the query values a matched request carries. The raw query
 * string is parsed by `url.ParseQuery`, which is not part of this model: its
 * outcome is the input here. Every parsed value is then split on commas.
 */
module Context {
  import opened Wrappers
  import opened Text

  /** `queries`: each query key with its list of values. */
  type Queries = map<string, seq<string>>

  /** `queries.Get`: the list stored under the key, or an empty list. */
  function Get(q: Queries, key: string): (values: seq<string>)
    ensures key in q ==> values == q[key]
    ensures key !in q ==> values == []
  {
    if key in q then q[key] else []
  }

  /**
   * The values of one key after splitting: the pieces of each raw value
   * split on ',', in the order of the values.
   */
  function SplitAll(vs: seq<string>): seq<string>
  {
    if vs == [] then [] else SplitAll(vs[..|vs| - 1]) + Split(vs[|vs| - 1], ',')
  }

  /** The number of pieces the raw values give: one more than its commas, per value. */
  function PieceCount(vs: seq<string>): nat
  {
    if vs == [] then 0 else PieceCount(vs[..|vs| - 1]) + Count(vs[|vs| - 1], ',') + 1
  }

  /**
   * The queries after splitting: a key appears exactly when it has at least
   * one raw value, and holds the split values.
   */
  function SplitValues(raw: Queries): (q: Queries)
    ensures forall k :: k in q <==> k in raw && raw[k] != []
    ensures forall k :: k in q ==> q[k] == SplitAll(raw[k])
  {
    map k | k in raw && raw[k] != [] :: SplitAll(raw[k])
  }

  /**
   * `extractQueries`: a parse failure is passed on with no queries; otherwise
   * every value of every key is split on ',' and the pieces are appended to
   * that key's list.
   */
  method ExtractQueries<E>(parsed: Result<Queries, E>) returns (r: Result<Queries, E>)
    ensures parsed.Failure? ==> r == Failure(parsed.error)
    ensures parsed.Success? ==> r == Success(SplitValues(parsed.value))
  {
    if parsed.Failure? {
      return Failure(parsed.error);
    }
    var raw := parsed.value;
    var q: Queries := map[];
    var keys := raw.Keys;
    while keys != {}
      invariant keys <= raw.Keys
      invariant forall k :: k in q ==> k in raw && k !in keys && raw[k] != []
      invariant forall k :: k in raw && k !in keys && raw[k] != [] ==> k in q && q[k] == SplitAll(raw[k])
      decreases keys
    {
      var k :| k in keys;
      var v := raw[k];
      for i := 0 to |v|
        invariant forall k' :: k' in q ==> k' in raw && (k' !in keys || k' == k) && raw[k'] != []
        invariant forall k' :: k' in raw && k' !in keys && raw[k'] != [] ==> k' in q && q[k'] == SplitAll(raw[k'])
        invariant i == 0 ==> k !in q
        invariant i > 0 ==> k in q && q[k] == SplitAll(v[..i])
      {
        assert v[..i + 1][..i] == v[..i];
        q := q[k := Get(q, k) + Split(v[i], ',')];
      }
      assert v[..|v|] == v;
      keys := keys - {k};
    }
    var expected := SplitValues(raw);
    assert forall k :: k in q <==> k in expected;
    assert forall k :: k in q ==> q[k] == expected[k];
    assert q == expected;
    return Success(q);
  }

  /** Splitting the values of a concatenation splits each part in turn. */
  lemma {:induction false} SplitAllAppend(a: seq<string>, b: seq<string>)
    ensures SplitAll(a + b) == SplitAll(a) + SplitAll(b)
  {
    if b != [] {
      assert (a + b)[..|a + b| - 1] == a + b[..|b| - 1];
      SplitAllAppend(a, b[..|b| - 1]);
    } else {
      assert a + b == a;
    }
  }

  /** A key's list has one piece per value plus one per comma. */
  lemma {:induction false} SplitAllLength(vs: seq<string>)
    ensures |SplitAll(vs)| == PieceCount(vs)
  {
    if vs != [] {
      SplitAllLength(vs[..|vs| - 1]);
      SplitLength(vs[|vs| - 1], ',');
    }
  }

  /** No piece holds a comma. */
  lemma {:induction false} SplitAllLacksCommas(vs: seq<string>)
    ensures forall i :: 0 <= i < |SplitAll(vs)| ==> ',' !in SplitAll(vs)[i]
  {
    if vs != [] {
      SplitAllLacksCommas(vs[..|vs| - 1]);
      SplitPiecesLackSeparator(vs[|vs| - 1], ',');
    }
  }

  /** Values without commas come through as they are. */
  lemma {:induction false} SplitAllWithoutCommas(vs: seq<string>)
    requires forall i :: 0 <= i < |vs| ==> ',' !in vs[i]
    ensures SplitAll(vs) == vs
  {
    if vs != [] {
      SplitAllWithoutCommas(vs[..|vs| - 1]);
      SplitWithoutSeparator(vs[|vs| - 1], ',');
      assert vs[..|vs| - 1] + [vs[|vs| - 1]] == vs;
    }
  }

  /** The pieces of one value joined with ',' give back the value. */
  lemma SplitOneValueRoundTrip(v: string)
    ensures SplitAll([v]) == Split(v, ',')
    ensures Join(SplitAll([v]), ',') == v
  {
    assert [v][..0] == [];
    JoinSplit(v, ',');
  }

  /**
   * `Get` on the extracted queries: the split values of the key, and an empty
   * list for a key that is absent or had no value.
   */
  lemma GetExtracted(raw: Queries, key: string)
    ensures Get(SplitValues(raw), key) == SplitAll(Get(raw, key))
  {
  }
}
