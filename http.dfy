/** The HTTP verbs the dispatcher routes on and the two request properties
    it reads. */
module Http {
  import opened Wrappers

  /** The `HttpMethod` enumeration. */
  datatype HttpMethod = GET | POST | PUT | DELETE | PATCH | HEAD | OPTIONS

  /** `Enum.name()`: the constant's identifier, a non-empty word of
      upper-case letters. */
  function Name(m: HttpMethod): (r: string)
  {
    match m
    case GET => "GET"
    case POST => "POST"
    case PUT => "PUT"
    case DELETE => "DELETE"
    case PATCH => "PATCH"
    case HEAD => "HEAD"
    case OPTIONS => "OPTIONS"
  }

  /** `HttpMethod.valueOf`: the constant whose name is exactly `s`.
      `None` stands for the IllegalArgumentException an unknown name raises. */
  function ValueOf(s: string): (r: Option<HttpMethod>)
    ensures r.Some? ==> Name(r.value) == s
    ensures r.None? ==> forall m :: Name(m) != s
  {
    if s == "GET" then Some(GET)
    else if s == "POST" then Some(POST)
    else if s == "PUT" then Some(PUT)
    else if s == "DELETE" then Some(DELETE)
    else if s == "PATCH" then Some(PATCH)
    else if s == "HEAD" then Some(HEAD)
    else if s == "OPTIONS" then Some(OPTIONS)
    else None
  }

  /** Parsing a constant's own name gives that constant back. */
  lemma ValueOfName(m: HttpMethod)
    ensures ValueOf(Name(m)) == Some(m)
  {
  }

  /** Hence distinct constants have distinct names. */
  lemma NameInjective()
    ensures forall m :: ValueOf(Name(m)) == Some(m)
    ensures forall m, n :: Name(m) == Name(n) ==> m == n
  {
    forall m
      ensures ValueOf(Name(m)) == Some(m)
    {
      ValueOfName(m);
    }
  }

  /** What the dispatcher reads from an `HttpServletRequest`: the request
      method (`getMethod`) and the extra path (`getPathInfo`, null when the
      request targets the servlet itself). */
  datatype Request = Request(requestMethod: string, pathInfo: Option<string>)
}
