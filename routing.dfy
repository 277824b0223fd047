/** The routing table of `ActionDispatcher`: a map from HTTP method to a map
    from url to action, filled by registration and read by lookup. */
module Routing {
  import opened Wrappers
  import opened JavaStrings
  import opened Http

  /** ROOT_PATH: the key for a blank registration url and for a request
      without extra path. */
  const RootPath: string := "/"

  /** The nested ACTION_MAP: HTTP method -> (url -> action). */
  type Table<A> = map<HttpMethod, map<string, A>>

  /** The IllegalArgumentExceptions registration throws. */
  datatype RegistrationError = NullAction | NullMethod | DuplicateRoute(httpMethod: HttpMethod, url: string)

  /** A registration request; `None` stands for a null argument. */
  datatype Route<A> = Route(action: Option<A>, httpMethod: Option<HttpMethod>, url: Option<string>)

  /** The key a registration url is stored under: null or blank urls become
      the root path, any other url is trimmed. */
  function NormalizeUrl(url: Option<string>): (key: string)
    ensures key != "" && Trim(key) == key
    ensures url.None? || IsBlank(url.value) ==> key == RootPath
    ensures url.Some? && !IsBlank(url.value) ==> key == Trim(url.value)
  {
    if url.None? || IsBlank(url.value) then
      RootPathTrimmed();
      Trim(RootPath)
    else
      TrimIdempotent(url.value);
      Trim(url.value)
  }

  lemma RootPathTrimmed()
    ensures Trim(RootPath) == RootPath
  {
    assert !IsWhite('/');
    TrimOfTrimmed(RootPath);
  }

  predicate Bound<A>(t: Table<A>, m: HttpMethod, path: string) {
    m in t && path in t[m]
  }

  /** The action stored under `(m, path)`, if any. */
  function Find<A>(t: Table<A>, m: HttpMethod, path: string): Option<A> {
    if Bound(t, m, path) then Some(t[m][path]) else None
  }

  /** `getAction`: an unparseable method and an unknown path both give "not
      found" (null); a request without extra path is looked up at the root. */
  function Resolve<A>(t: Table<A>, requestMethod: string, pathInfo: Option<string>): (r: Option<A>)
    ensures var path := if pathInfo.None? then RootPath else pathInfo.value;
      r.Some? <==> exists m :: Name(m) == requestMethod && Bound(t, m, path)
    ensures var path := if pathInfo.None? then RootPath else pathInfo.value;
      forall m :: Name(m) == requestMethod ==> r == Find(t, m, path)
  {
    NameInjective();
    match ValueOf(requestMethod)
    case None => None
    case Some(m) => Find(t, m, if pathInfo.None? then RootPath else pathInfo.value)
  }

  /** `registerAction` on a table value: null arguments and an already bound
      `(method, key)` are rejected and change nothing; otherwise exactly that
      key is bound to the action. */
  function Register<A>(t: Table<A>, action: Option<A>, httpMethod: Option<HttpMethod>, url: Option<string>): (r: Result<Table<A>, RegistrationError>)
    ensures action.None? ==> r == Failure(NullAction)
    ensures action.Some? && httpMethod.None? ==> r == Failure(NullMethod)
    ensures action.Some? && httpMethod.Some? ==>
      && (r.Failure? <==> Bound(t, httpMethod.value, NormalizeUrl(url)))
      && (r.Failure? ==> r.error == DuplicateRoute(httpMethod.value, NormalizeUrl(url)))
    ensures r.Success? ==>
      && action.Some? && httpMethod.Some?
      && Find(r.value, httpMethod.value, NormalizeUrl(url)) == Some(action.value)
      && forall m, path :: (m != httpMethod.value || path != NormalizeUrl(url)) ==> Find(r.value, m, path) == Find(t, m, path)
  {
    if action.None? then Failure(NullAction)
    else if httpMethod.None? then Failure(NullMethod)
    else
      var m, key := httpMethod.value, NormalizeUrl(url);
      var inner := if m in t then t[m] else map[];
      if key in inner then Failure(DuplicateRoute(m, key))
      else Success(t[m := inner[key := action.value]])
  }

  /** A sequence of registrations, stopping at the first that throws. */
  ghost function RegisterAll<A>(t: Table<A>, routes: seq<Route<A>>): Result<Table<A>, RegistrationError>
    decreases |routes|
  {
    if routes == [] then Success(t)
    else match Register(t, routes[0].action, routes[0].httpMethod, routes[0].url)
      case Failure(e) => Failure(e)
      case Success(t1) => RegisterAll(t1, routes[1..])
  }

  /** The route key a (non-null) registration binds. */
  ghost predicate Registers<A>(route: Route<A>, m: HttpMethod, path: string, a: A) {
    route.action == Some(a) && route.httpMethod == Some(m) && NormalizeUrl(route.url) == path
  }

  // ----- Lookup -----

  /** Lookup never fails on an unrecognised method: it is "not found". */
  lemma ResolveUnknownMethod<A>(t: Table<A>, requestMethod: string, pathInfo: Option<string>)
    requires forall m :: Name(m) != requestMethod
    ensures Resolve(t, requestMethod, pathInfo) == None
  {
  }

  /** A request without extra path resolves exactly as one for the root path. */
  lemma ResolveAbsentPathIsRoot<A>(t: Table<A>, requestMethod: string)
    ensures Resolve(t, requestMethod, None) == Resolve(t, requestMethod, Some(RootPath))
  {
  }

  /** Lookup finds an action only for a bound key, and then the bound one. */
  lemma ResolveFindsBound<A>(t: Table<A>, m: HttpMethod, path: string)
    ensures Resolve(t, Name(m), Some(path)) == (if Bound(t, m, path) then Some(t[m][path]) else None)
  {
    ValueOfName(m);
  }

  /** After clearActions every lookup is "not found". */
  lemma ResolveCleared<A>(requestMethod: string, pathInfo: Option<string>)
    ensures Resolve<A>(map[], requestMethod, pathInfo) == None
  {
  }

  // ----- Registration -----

  /** Lookup after a successful registration returns the new action at the
      normalised key, under the method's own name; every other request
      resolves as before. */
  lemma RegisterThenResolve<A>(t: Table<A>, a: A, m: HttpMethod, url: Option<string>, t': Table<A>)
    requires Register(t, Some(a), Some(m), url) == Success(t')
    ensures Resolve(t', Name(m), Some(NormalizeUrl(url))) == Some(a)
    ensures forall s: string, p: Option<string> :: (ValueOf(s) != Some(m) || (if p.None? then RootPath else p.value) != NormalizeUrl(url)) ==>
      Resolve(t', s, p) == Resolve(t, s, p)
  {
    ValueOfName(m);
  }

  /** The same url registers independently under two methods, and lookup
      under a method that has no binding there is "not found". */
  lemma SameUrlDistinctMethods<A>(a: A, b: A, m1: HttpMethod, m2: HttpMethod, url: Option<string>, m3: HttpMethod)
    requires m1 != m2 && m3 != m1 && m3 != m2
    ensures Register(map[], Some(a), Some(m1), url).Success?
    ensures var t1 := Register(map[], Some(a), Some(m1), url).value;
      && Register(t1, Some(b), Some(m2), url).Success?
      && var t2 := Register(t1, Some(b), Some(m2), url).value;
      && Resolve(t2, Name(m1), Some(NormalizeUrl(url))) == Some(a)
      && Resolve(t2, Name(m2), Some(NormalizeUrl(url))) == Some(b)
      && Resolve(t2, Name(m3), Some(NormalizeUrl(url))) == None
  {
    ValueOfName(m1);
    ValueOfName(m2);
    ValueOfName(m3);
  }

  /** Registering a bound key again fails as a duplicate and the original
      binding stays. */
  lemma DuplicateKeepsOriginal<A>(a: A, b: A, m: HttpMethod, url: Option<string>)
    ensures Register(map[], Some(a), Some(m), url).Success?
    ensures var t := Register(map[], Some(a), Some(m), url).value;
      && Register(t, Some(b), Some(m), url) == Failure(DuplicateRoute(m, NormalizeUrl(url)))
      && Resolve(t, Name(m), Some(NormalizeUrl(url))) == Some(a)
  {
    ValueOfName(m);
  }

  /** Urls that differ only in surrounding white space are the same key. */
  lemma PaddedUrlCollides()
    ensures NormalizeUrl(Some(" /a ")) == NormalizeUrl(Some("/a")) == "/a"
  {
    assert TrimStart(" /a ") == "/a ";
    assert TrimEnd("/a ") == "/a";
    assert TrimStart("/a") == "/a";
  }

  /** There is no trailing-slash folding: "/a" and "/a/" are distinct keys. */
  lemma TrailingSlashDistinct()
    ensures NormalizeUrl(Some("/a")) == "/a" && NormalizeUrl(Some("/a/")) == "/a/"
  {
    assert TrimStart("/a") == "/a";
    assert TrimStart("/a/") == "/a/";
  }

  /** A null or blank url is the root path. */
  lemma BlankUrlIsRoot(url: Option<string>)
    requires url.None? || forall i :: 0 <= i < |url.value| ==> IsWhite(url.value[i])
    ensures NormalizeUrl(url) == RootPath
  {
    if url.Some? {
      BlankIffAllWhite(url.value);
    }
  }

  // ----- Sequences of registrations -----

  /** Successful registrations never remove or replace a binding. */
  lemma {:induction false} RegisterAllKeeps<A>(t: Table<A>, routes: seq<Route<A>>, t': Table<A>, m: HttpMethod, path: string)
    requires RegisterAll(t, routes) == Success(t')
    requires Bound(t, m, path)
    ensures Find(t', m, path) == Find(t, m, path)
    decreases |routes|
  {
    if routes != [] {
      var t1 := Register(t, routes[0].action, routes[0].httpMethod, routes[0].url).value;
      RegisterAllKeeps(t1, routes[1..], t', m, path);
    }
  }

  /** After a sequence of registrations that all succeed, every route
      resolves to its own action. */
  lemma {:induction false} RegisterAllResolves<A>(t: Table<A>, routes: seq<Route<A>>, t': Table<A>)
    requires RegisterAll(t, routes) == Success(t')
    ensures forall i :: 0 <= i < |routes| ==>
      routes[i].action.Some? && routes[i].httpMethod.Some? &&
      Find(t', routes[i].httpMethod.value, NormalizeUrl(routes[i].url)) == routes[i].action
    decreases |routes|
  {
    if routes != [] {
      var r := routes[0];
      var t1 := Register(t, r.action, r.httpMethod, r.url).value;
      RegisterAllResolves(t1, routes[1..], t');
      RegisterAllKeeps(t1, routes[1..], t', r.httpMethod.value, NormalizeUrl(r.url));
      forall i | 0 < i < |routes|
        ensures Find(t', routes[i].httpMethod.value, NormalizeUrl(routes[i].url)) == routes[i].action
      {
        assert routes[i] == routes[1..][i - 1];
      }
    }
  }

  /** After a sequence of registrations that all succeed, every binding of
      the result was there before or was registered by one of the routes. */
  lemma {:induction false} RegisterAllOnlyRoutes<A>(t: Table<A>, routes: seq<Route<A>>, t': Table<A>)
    requires RegisterAll(t, routes) == Success(t')
    ensures forall m, path :: Bound(t', m, path) ==>
      Find(t', m, path) == Find(t, m, path) || exists i :: 0 <= i < |routes| && Registers(routes[i], m, path, t'[m][path])
    decreases |routes|
  {
    if routes != [] {
      var r := routes[0];
      var t1 := Register(t, r.action, r.httpMethod, r.url).value;
      RegisterAllOnlyRoutes(t1, routes[1..], t');
      forall m, path | Bound(t', m, path)
        ensures Find(t', m, path) == Find(t, m, path) || exists i :: 0 <= i < |routes| && Registers(routes[i], m, path, t'[m][path])
      {
        if Find(t', m, path) != Find(t1, m, path) {
          var j :| 0 <= j < |routes| - 1 && Registers(routes[1..][j], m, path, t'[m][path]);
          assert routes[j + 1] == routes[1..][j];
        } else if Find(t1, m, path) != Find(t, m, path) {
          assert Registers(routes[0], m, path, t'[m][path]);
        }
      }
    }
  }

  /** Registering the same non-empty sequence again without clearing fails:
      its first route is already bound. This is why clearActions must run
      before a table is rebuilt. */
  lemma ReRegisterWithoutClearFails<A>(t: Table<A>, routes: seq<Route<A>>, t': Table<A>)
    requires RegisterAll(t, routes) == Success(t')
    requires routes != []
    ensures RegisterAll(t', routes).Failure?
  {
    RegisterAllResolves(t, routes, t');
    var r := routes[0];
    assert Bound(t', r.httpMethod.value, NormalizeUrl(r.url));
  }

  /** Every route key bound in `t0` is also bound in `t`. */
  ghost predicate KeysWithin<A>(t0: Table<A>, t: Table<A>) {
    forall m, path :: Bound(t0, m, path) ==> Bound(t, m, path)
  }

  /** Registrations that succeed on a table also succeed on one binding
      fewer route keys: a registration only fails on a key already bound. */
  lemma {:induction false} RegisterAllFewerKeys<A>(t0: Table<A>, t: Table<A>, routes: seq<Route<A>>)
    requires KeysWithin(t0, t)
    requires RegisterAll(t, routes).Success?
    ensures RegisterAll(t0, routes).Success?
    decreases |routes|
  {
    if routes != [] {
      var r := routes[0];
      var t1 := Register(t, r.action, r.httpMethod, r.url).value;
      assert !Bound(t0, r.httpMethod.value, NormalizeUrl(r.url));
      var t01 := Register(t0, r.action, r.httpMethod, r.url).value;
      forall m, path | Bound(t01, m, path)
        ensures Bound(t1, m, path)
      {
        if m != r.httpMethod.value || path != NormalizeUrl(r.url) {
          assert Find(t01, m, path) == Find(t0, m, path);
          assert Find(t1, m, path) == Find(t, m, path);
        } else {
          assert Find(t1, m, path) == r.action;
        }
      }
      RegisterAllFewerKeys(t01, t1, routes[1..]);
    }
  }

  /** After clearActions the same routes register again and each resolves
      to the action it resolved to before: clearing and re-registering
      rebuilds the table. */
  lemma ReRegisterAfterClear<A>(t: Table<A>, routes: seq<Route<A>>, t': Table<A>)
    requires RegisterAll(t, routes) == Success(t')
    ensures RegisterAll(map[], routes).Success?
    ensures forall i :: 0 <= i < |routes| ==>
      routes[i].httpMethod.Some? &&
      Find(RegisterAll(map[], routes).value, routes[i].httpMethod.value, NormalizeUrl(routes[i].url)) ==
      Find(t', routes[i].httpMethod.value, NormalizeUrl(routes[i].url))
  {
    var empty: Table<A> := map[];
    RegisterAllFewerKeys(empty, t, routes);
    RegisterAllResolves(t, routes, t');
    RegisterAllResolves(empty, routes, RegisterAll(empty, routes).value);
  }

  // ----- The mutable dispatcher -----

  /** ActionDispatcher: owns ACTION_MAP and changes it in place. */
  class ActionDispatcher<A> {
    var actionMap: Table<A>

    constructor ()
      ensures actionMap == map[]
    {
      actionMap := map[];
    }

    /** `registerAction`: fails with IllegalArgumentException on a null
        action, a null method or a duplicate key (leaving the table as it
        was); otherwise stores the action under the normalised url. */
    method RegisterAction(action: Option<A>, httpMethod: Option<HttpMethod>, url: Option<string>) returns (r: Outcome<RegistrationError>)
      modifies this
      ensures r.Pass? ==> Register(old(actionMap), action, httpMethod, url) == Success(actionMap)
      ensures r.Fail? ==> Register(old(actionMap), action, httpMethod, url) == Failure(r.error) && actionMap == old(actionMap)
    {
      if action.None? {
        return Fail(NullAction);
      }
      if httpMethod.None? {
        return Fail(NullMethod);
      }
      var u := if url.None? || IsBlank(url.value) then RootPath else url.value;
      u := Trim(u);
      assert u == NormalizeUrl(url);
      var m := httpMethod.value;
      ghost var before := actionMap;
      var inner: map<string, A>;
      if m in actionMap {
        inner := actionMap[m];
      } else {
        inner := map[];
        actionMap := actionMap[m := inner];
      }
      if u in inner {
        return Fail(DuplicateRoute(m, u));
      }
      actionMap := actionMap[m := inner[u := action.value]];
      assert actionMap == before[m := inner[u := action.value]];
      return Pass;
    }

    /** `clearActions`: removes every binding. */
    method ClearActions()
      modifies this
      ensures actionMap == map[]
    {
      actionMap := map[];
    }

    /** `getAction`: the lookup, which never throws. */
    method GetAction(req: Request) returns (action: Option<A>)
      ensures action == Resolve(actionMap, req.requestMethod, req.pathInfo)
    {
      var m := ValueOf(req.requestMethod);
      var path := if req.pathInfo.None? then RootPath else req.pathInfo.value;
      if m.None? || m.value !in actionMap {
        return None;
      }
      var inner := actionMap[m.value];
      if path in inner {
        return Some(inner[path]);
      }
      return None;
    }
  }
}
