/**
 * The pieces of Go's `strings` and `path` packages that the router relies on,
 * restricted to the cases it uses: splitting on a one-character separator,
 * prefix tests, ASCII case mapping and the lexical cleaning of a rooted path.
 */
module Text {

  /** Number of occurrences of `c` in `s`. */
  function Count(s: string, c: char): nat
  {
    if s == [] then 0 else (if s[0] == c then 1 else 0) + Count(s[1..], c)
  }

  /**
   * `strings.Split(s, string(sep))`: the pieces of `s` between consecutive
   * occurrences of `sep`. There is always at least one piece: the empty string
   * splits into `[""]`.
   */
  function Split(s: string, sep: char): (pieces: seq<string>)
    ensures |pieces| >= 1
  {
    if s == [] then [""]
    else
      var rest := Split(s[1..], sep);
      if s[0] == sep then [""] + rest
      else [[s[0]] + rest[0]] + rest[1..]
  }

  /** `strings.Join(pieces, string(sep))`. */
  function Join(pieces: seq<string>, sep: char): string
  {
    if |pieces| == 0 then ""
    else if |pieces| == 1 then pieces[0]
    else pieces[0] + [sep] + Join(pieces[1..], sep)
  }

  /** A string with n separators splits into n + 1 pieces. */
  lemma {:induction false} SplitLength(s: string, sep: char)
    ensures |Split(s, sep)| == Count(s, sep) + 1
  {
    if s != [] {
      SplitLength(s[1..], sep);
    }
  }

  /** No piece contains the separator. */
  lemma {:induction false} SplitPiecesLackSeparator(s: string, sep: char)
    ensures forall i :: 0 <= i < |Split(s, sep)| ==> sep !in Split(s, sep)[i]
  {
    if s != [] {
      SplitPiecesLackSeparator(s[1..], sep);
      var rest := Split(s[1..], sep);
      if s[0] != sep {
        assert sep !in rest[0];
      }
    }
  }

  /** Joining the pieces with the separator gives back the string. */
  lemma {:induction false} JoinSplit(s: string, sep: char)
    ensures Join(Split(s, sep), sep) == s
  {
    if s != [] {
      JoinSplit(s[1..], sep);
      var rest := Split(s[1..], sep);
      if s[0] == sep {
        assert Split(s, sep)[1..] == rest;
      } else {
        var pieces := Split(s, sep);
        assert pieces[1..] == rest[1..];
        if |rest| > 1 {
          assert Join(rest, sep) == rest[0] + [sep] + Join(rest[1..], sep);
        }
      }
    }
  }

  /** A string without the separator is a single piece. */
  lemma {:induction false} SplitWithoutSeparator(s: string, sep: char)
    requires sep !in s
    ensures Split(s, sep) == [s]
  {
    if s != [] {
      assert s[0] in s;
      SplitWithoutSeparator(s[1..], sep);
      assert [s[0]] + s[1..] == s;
    }
  }

  /** Splitting distributes over a separator whose left side holds no separator. */
  lemma {:induction false} SplitAtSeparator(a: string, b: string, sep: char)
    requires sep !in a
    ensures Split(a + [sep] + b, sep) == [a] + Split(b, sep)
  {
    if a == [] {
      assert ([] + [sep] + b)[1..] == b;
    } else {
      SplitAtSeparator(a[1..], b, sep);
      assert (a + [sep] + b)[1..] == a[1..] + [sep] + b;
      assert [a[0]] + a[1..] == a;
    }
  }

  /** Splitting a join of separator-free pieces gives back the pieces. */
  lemma {:induction false} SplitJoin(pieces: seq<string>, sep: char)
    requires |pieces| >= 1
    requires forall i :: 0 <= i < |pieces| ==> sep !in pieces[i]
    ensures Split(Join(pieces, sep), sep) == pieces
  {
    if |pieces| == 1 {
      SplitWithoutSeparator(pieces[0], sep);
    } else {
      SplitJoin(pieces[1..], sep);
      SplitAtSeparator(pieces[0], Join(pieces[1..], sep), sep);
      assert [pieces[0]] + pieces[1..] == pieces;
    }
  }

  /** `strings.HasPrefix(s, prefix)`. */
  predicate HasPrefix(s: string, prefix: string)
  {
    |prefix| <= |s| && s[..|prefix|] == prefix
  }

  predicate IsUpperLetter(c: char) { 'A' <= c <= 'Z' }

  predicate IsLowerLetter(c: char) { 'a' <= c <= 'z' }

  function LowerChar(c: char): char
  {
    if IsUpperLetter(c) then (c as int + 32) as char else c
  }

  function UpperChar(c: char): char
  {
    if IsLowerLetter(c) then (c as int - 32) as char else c
  }

  /** `strings.ToLower`, for ASCII letters. */
  function ToLower(s: string): string
  {
    seq(|s|, i requires 0 <= i < |s| => LowerChar(s[i]))
  }

  /** `strings.ToUpper`, for ASCII letters. */
  function ToUpper(s: string): string
  {
    seq(|s|, i requires 0 <= i < |s| => UpperChar(s[i]))
  }

  /** A string in which no character is an upper-case letter. */
  predicate IsLowerCase(s: string)
  {
    forall i :: 0 <= i < |s| ==> !IsUpperLetter(s[i])
  }

  /** A string in which no character is a lower-case letter. */
  predicate IsUpperCase(s: string)
  {
    forall i :: 0 <= i < |s| ==> !IsLowerLetter(s[i])
  }

  /** Lower-casing leaves no upper-case letter and changes nothing a second time. */
  lemma ToLowerIsLowerCase(s: string)
    ensures IsLowerCase(ToLower(s))
    ensures ToLower(ToLower(s)) == ToLower(s)
  {
  }

  /** Upper-casing leaves no lower-case letter and changes nothing a second time. */
  lemma ToUpperIsUpperCase(s: string)
    ensures IsUpperCase(ToUpper(s))
    ensures ToUpper(ToUpper(s)) == ToUpper(s)
  {
  }

  /** A string that is already lower case is its own lower-casing, and only then. */
  lemma ToLowerFixesExactlyLowerCase(s: string)
    ensures ToLower(s) == s <==> IsLowerCase(s)
  {
    if ToLower(s) == s {
      ToLowerIsLowerCase(s);
    }
  }

  // ---------------------------------------------------------------------
  // path.Clean on a rooted path: drop empty and "." elements, let ".."
  // remove the element before it (or nothing, at the root), and join what
  // is left behind a single "/".
  // ---------------------------------------------------------------------

  /** Processes one element against the elements kept so far. */
  function CleanStep(kept: seq<string>, elem: string): seq<string>
  {
    if elem == "" || elem == "." then kept
    else if elem == ".." then (if kept == [] then [] else kept[..|kept| - 1])
    else kept + [elem]
  }

  /** Processes the elements from left to right. */
  function Resolve(elems: seq<string>): seq<string>
  {
    if elems == [] then [] else CleanStep(Resolve(elems[..|elems| - 1]), elems[|elems| - 1])
  }

  /** An element that survives cleaning: not empty, not "." or "..", and no slash. */
  predicate IsCleanElem(e: string)
  {
    e != "" && e != "." && e != ".." && '/' !in e
  }

  lemma {:induction false} ResolveKeepsCleanElems(elems: seq<string>)
    requires forall i :: 0 <= i < |elems| ==> '/' !in elems[i]
    ensures forall i :: 0 <= i < |Resolve(elems)| ==> IsCleanElem(Resolve(elems)[i])
  {
    if elems != [] {
      ResolveKeepsCleanElems(elems[..|elems| - 1]);
    }
  }

  /** Resolving elements that are all clean keeps every one of them. */
  lemma {:induction false} ResolveOfCleanElems(elems: seq<string>)
    requires forall i :: 0 <= i < |elems| ==> IsCleanElem(elems[i])
    ensures Resolve(elems) == elems
  {
    if elems != [] {
      ResolveOfCleanElems(elems[..|elems| - 1]);
      assert elems[..|elems| - 1] + [elems[|elems| - 1]] == elems;
    }
  }

  /** Empty elements can be dropped from the front before resolving. */
  lemma {:induction false} ResolveIgnoresLeadingEmpty(elems: seq<string>)
    ensures Resolve([""] + elems) == Resolve(elems)
  {
    if elems != [] {
      var all := [""] + elems;
      assert all[..|all| - 1] == [""] + elems[..|elems| - 1];
      ResolveIgnoresLeadingEmpty(elems[..|elems| - 1]);
    }
  }

  /** A join of non-empty pieces ends with the last character of the last piece. */
  lemma {:induction false} JoinEndsWithLastPiece(pieces: seq<string>, sep: char)
    requires |pieces| >= 1 && pieces[|pieces| - 1] != ""
    ensures var j := Join(pieces, sep); |j| > 0 && j[|j| - 1] == pieces[|pieces| - 1][|pieces[|pieces| - 1]| - 1]
  {
    if |pieces| > 1 {
      JoinEndsWithLastPiece(pieces[1..], sep);
    }
  }

  /** A slash followed by clean elements ends in a slash only when there are none. */
  lemma RootedJoinEndsInSlashOnlyAtRoot(kept: seq<string>)
    requires forall i :: 0 <= i < |kept| ==> IsCleanElem(kept[i])
    ensures var r := "/" + Join(kept, '/'); r[|r| - 1] == '/' ==> kept == []
  {
    if kept != [] {
      JoinEndsWithLastPiece(kept, '/');
      var last := kept[|kept| - 1];
      assert last[|last| - 1] in last;
    }
  }

  /**
   * `path.Clean(p)` for a rooted `p`: the result is rooted too, and ends in a
   * slash only when it is the root itself.
   */
  function CleanRooted(p: string): (r: string)
    requires |p| > 0 && p[0] == '/'
    ensures |r| > 0 && r[0] == '/'
    ensures r[|r| - 1] == '/' ==> r == "/"
  {
    var elems := Split(p, '/');
    SplitPiecesLackSeparator(p, '/');
    ResolveKeepsCleanElems(elems);
    var kept := Resolve(elems);
    RootedJoinEndsInSlashOnlyAtRoot(kept);
    "/" + Join(kept, '/')
  }

  /** Cleaning a path that is already clean changes nothing. */
  lemma CleanRootedIdempotent(p: string)
    requires |p| > 0 && p[0] == '/'
    ensures CleanRooted(CleanRooted(p)) == CleanRooted(p)
  {
    var elems := Split(p, '/');
    SplitPiecesLackSeparator(p, '/');
    ResolveKeepsCleanElems(elems);
    var kept := Resolve(elems);
    var c := CleanRooted(p);
    assert c == "/" + Join(kept, '/');
    if kept == [] {
      assert c == "/";
      assert Split(c, '/') == ["", ""];
      assert Resolve(["", ""]) == [];
    } else {
      assert c == [] + ['/'] + Join(kept, '/');
      SplitAtSeparator([], Join(kept, '/'), '/');
      SplitJoin(kept, '/');
      assert Split(c, '/') == [""] + kept;
      ResolveIgnoresLeadingEmpty(kept);
      ResolveOfCleanElems(kept);
    }
  }

  /** Joining one more piece appends the separator and that piece. */
  lemma {:induction false} JoinSnoc(pieces: seq<string>, last: string, sep: char)
    requires |pieces| >= 1
    ensures Join(pieces + [last], sep) == Join(pieces, sep) + [sep] + last
  {
    if |pieces| > 1 {
      JoinSnoc(pieces[1..], last, sep);
      assert (pieces + [last])[1..] == pieces[1..] + [last];
    }
  }

  /**
   * Cleaning a cleaned path with a slash appended gives the cleaned path back:
   * `path.Clean` drops the trailing slash it meets.
   */
  lemma CleanRootedDropsTrailingSlash(p: string)
    requires |p| > 0 && p[0] == '/'
    ensures CleanRooted(CleanRooted(p) + "/") == CleanRooted(p)
  {
    var elems := Split(p, '/');
    SplitPiecesLackSeparator(p, '/');
    ResolveKeepsCleanElems(elems);
    var kept := Resolve(elems);
    var c := CleanRooted(p);
    assert c == "/" + Join(kept, '/');
    if kept == [] {
      assert c + "/" == "//";
      assert Split("//", '/') == ["", "", ""];
      assert Resolve([""]) == [];
      assert Resolve(["", ""]) == [];
      assert Resolve(["", "", ""]) == [];
    } else {
      var pieces := kept + [""];
      JoinSnoc(kept, "", '/');
      assert c + "/" == [] + ['/'] + Join(pieces, '/');
      SplitAtSeparator([], Join(pieces, '/'), '/');
      assert forall i :: 0 <= i < |pieces| ==> '/' !in pieces[i] by {
        forall i | 0 <= i < |pieces| ensures '/' !in pieces[i] {
          if i < |kept| {
            assert IsCleanElem(kept[i]);
          }
        }
      }
      SplitJoin(pieces, '/');
      var all := [""] + pieces;
      assert Split(c + "/", '/') == all;
      assert all[..|all| - 1] == [""] + kept;
      ResolveIgnoresLeadingEmpty(kept);
      ResolveOfCleanElems(kept);
    }
  }
}
