/**
 * The parts of Go's `net/http` request and handler types that the router
 * reads, as values.
 */
module Http {
  import opened Text

  /**
   * A handler is an opaque reference; the router only stores, compares and
   * invokes it. `NotFoundResponder` is `http.NotFoundHandler()`, the 404
   * responder the router falls back on.
   */
  datatype Handler = NotFoundResponder | Registered(id: nat)

  /**
   * What the router reads from an incoming request: the method (`verb`), the URL's
   * scheme, its decoded path and its escaped form (`URL.EscapedPath()`, given
   * rather than computed), and the header map from key to values.
   */
  datatype Request = Request(
    verb: string,
    scheme: string,
    path: string,
    escapedPath: string,
    header: map<string, seq<string>>)

  /** A byte allowed in a header field name (an RFC 7230 token character). */
  predicate IsTokenChar(c: char)
  {
    IsLowerLetter(c) || IsUpperLetter(c) || '0' <= c <= '9' || c in "!#$%&'*+-.^_`|~"
  }

  /** Upper-cases the first letter and each letter after a hyphen, lower-cases the rest. */
  function CanonicalCase(s: string, upper: bool): string
  {
    if s == [] then []
    else [if upper then UpperChar(s[0]) else LowerChar(s[0])] + CanonicalCase(s[1..], s[0] == '-')
  }

  /**
   * `http.CanonicalHeaderKey`: "content-type" becomes "Content-Type"; a key
   * holding a character that may not appear in a header name is returned
   * unchanged.
   */
  function CanonicalHeaderKey(s: string): string
  {
    if forall i :: 0 <= i < |s| ==> IsTokenChar(s[i]) then CanonicalCase(s, true) else s
  }
}
