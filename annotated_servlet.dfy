/** `ActionServlet`: a servlet whose actions are its own annotated methods.
    Reflection is replaced by a list of descriptors, one per `@WebAction`
    annotation found, in the order the methods are enumerated. */
module AnnotatedServlet {
  import opened Wrappers
  import opened JavaStrings
  import opened Http
  import opened Lifecycle
  import opened Routing

  // ----- Signature check -----

  const PublicVoid: string := "public void "
  const RequestClass: string := "javax.servlet.http.HttpServletRequest"
  const ResponseClass: string := "javax.servlet.http.HttpServletResponse"
  const RequestResponseArgs: string := RequestClass + "," + ResponseClass
  const ServletExceptionName: string := "javax.servlet.ServletException"
  const IOExceptionName: string := "java.io.IOException"
  const ThrowsKeyword: string := "throws "

  /** The exception names of the text after the argument list, read as
      `matchSignature` reads them: trimmed, every "throws " removed, split
      on commas, collected into a set. */
  function ThrownExceptions(clause: string): set<string> {
    var parts := Split(Replace(Trim(clause), ThrowsKeyword, ""), ',');
    set p | p in parts
  }

  /** `matchSignature` on `Method.toGenericString()`: the signature must
      start with "public void ", the text between the first "(" and the
      first ")" must be the request/response argument list, and the throws
      clause must name exactly ServletException and IOException. When the
      parentheses are missing or out of order `substring` throws, which
      rejects the method as well. */
  predicate MatchSignature(signature: string) {
    && StartsWith(signature, PublicVoid)
    && var open := IndexOf(signature, '(');
       var close := IndexOf(signature, ')');
       && open + 1 <= close
       && signature[open + 1..close] == RequestResponseArgs
       && var thrown := ThrownExceptions(signature[close + 1..]);
          |thrown| == 2 && ServletExceptionName in thrown && IOExceptionName in thrown
  }

  /** An accepted signature starts with "public void " and has a `)`, with
      the first `(`, if any, in front of the first `)`; that the `(` is
      there is `MatchSignatureHasOpen`. */
  lemma MatchSignatureShape(signature: string)
    requires MatchSignature(signature)
    ensures StartsWith(signature, PublicVoid)
    ensures ')' in signature && IndexOf(signature, '(') < IndexOf(signature, ')')
  {
  }

  /** Text starting with "public void " does not start with the argument list. */
  lemma ArgumentsNotLeading(signature: string, close: nat)
    requires StartsWith(signature, PublicVoid) && close <= |signature|
    ensures signature[0..close] != RequestResponseArgs
  {
    assert signature[0] == 'p' by { assert signature[..|PublicVoid|][0] == PublicVoid[0]; }
    assert RequestResponseArgs[0] == 'j' by { assert RequestResponseArgs[0] == RequestClass[0]; }
    assert close == 0 || signature[0..close][0] == 'p';
  }

  /** An accepted signature contains a `(`: without one, `substring(0, close)`
      would have to be the argument list, and it starts like "public void ". */
  lemma MatchSignatureHasOpen(signature: string)
    requires MatchSignature(signature)
    ensures 0 <= IndexOf(signature, '(')
  {
    var close := IndexOf(signature, ')');
    MatchSignatureShape(signature);
    ArgumentsNotLeading(signature, close);
  }

  /** The generic string of a public void method named `qualifiedName`
      taking (request, response), followed by `rest`. */
  function HandlerSignature(qualifiedName: string, rest: string): string {
    PublicVoid + qualifiedName + "(" + RequestResponseArgs + ")" + rest
  }

  /** Where the parentheses of `head + "(" + args + ")" + rest` are found
      when neither `head` nor `args` contains one. */
  lemma ParenthesesFound(head: string, args: string, rest: string)
    requires '(' !in head && ')' !in head && ')' !in args
    ensures var sig := head + "(" + args + ")" + rest;
      && IndexOf(sig, '(') == |head|
      && IndexOf(sig, ')') == |head| + 1 + |args|
      && sig[|head| + 1..|head| + 1 + |args|] == args
      && sig[|head| + 2 + |args|..] == rest
  {
    var sig := head + "(" + args + ")" + rest;
    assert sig == head + ("(" + args + ")" + rest);
    IndexOfAfter(head, "(" + args + ")" + rest, '(');
    var body := head + "(" + args;
    assert ')' !in body;
    assert sig == body + (")" + rest);
    IndexOfAfter(body, ")" + rest, ')');
  }

  lemma ArgumentLiterals()
    ensures '(' !in PublicVoid && ')' !in PublicVoid && ')' !in RequestResponseArgs
  {
    assert ')' !in RequestClass && ')' !in ResponseClass;
  }

  lemma ExceptionLiterals()
    ensures ' ' !in ServletExceptionName && ',' !in ServletExceptionName
    ensures ' ' !in IOExceptionName && ',' !in IOExceptionName
    ensures ServletExceptionName != IOExceptionName
    ensures ' ' in ThrowsKeyword
  {
    assert ThrowsKeyword[6] == ' ';
    assert |ServletExceptionName| != |IOExceptionName|;
  }

  /** For a handler-shaped signature the check comes down to its throws clause. */
  lemma HandlerSignatureParts(qualifiedName: string, rest: string)
    requires '(' !in qualifiedName && ')' !in qualifiedName
    ensures var thrown := ThrownExceptions(rest);
      MatchSignature(HandlerSignature(qualifiedName, rest)) <==>
        |thrown| == 2 && ServletExceptionName in thrown && IOExceptionName in thrown
  {
    ArgumentLiterals();
    var head := PublicVoid + qualifiedName;
    ParenthesesFound(head, RequestResponseArgs, rest);
    var sig := HandlerSignature(qualifiedName, rest);
    assert sig == head + "(" + RequestResponseArgs + ")" + rest;
    assert sig[..|PublicVoid|] == PublicVoid;
  }

  /** "throws " followed by `list` reads as the list when the list has no spaces. */
  lemma ThrowsClauseRead(list: string)
    requires list != [] && ' ' !in list && !IsWhite(list[|list| - 1])
    ensures Replace(Trim(" " + ThrowsKeyword + list), ThrowsKeyword, "") == list
  {
    ExceptionLiterals();
    var clause := ThrowsKeyword + list;
    assert " " + clause == " " + ThrowsKeyword + list;
    assert (" " + clause)[1..] == clause;
    assert clause[0] == 't';
    assert TrimStart(" " + clause) == clause;
    assert clause[|clause| - 1] == list[|list| - 1];
    TrimOfTrimmed(clause);
    assert clause[..|ThrowsKeyword|] == ThrowsKeyword && clause[|ThrowsKeyword|..] == list;
    ReplaceAbsent(list, ThrowsKeyword, "", ' ');
  }

  /** The declared throws clause is read as exactly the two exceptions. */
  lemma ThrowsPairRead(first: string, second: string)
    requires first == ServletExceptionName || first == IOExceptionName
    requires second == ServletExceptionName || second == IOExceptionName
    ensures ThrownExceptions(" " + ThrowsKeyword + first + "," + second) == {first, second}
  {
    ExceptionLiterals();
    var list := first + "," + second;
    assert " " + ThrowsKeyword + first + "," + second == " " + ThrowsKeyword + list;
    ThrowsClauseRead(list);
    SplitPair(first, second, ',');
  }

  /** A handler declared `throws ServletException, IOException` (in either
      order) passes the check. */
  lemma HandlerSignatureAccepted(qualifiedName: string, first: string, second: string)
    requires '(' !in qualifiedName && ')' !in qualifiedName
    requires {first, second} == {ServletExceptionName, IOExceptionName}
    ensures MatchSignature(HandlerSignature(qualifiedName, " " + ThrowsKeyword + first + "," + second))
  {
    ExceptionLiterals();
    assert first in {ServletExceptionName, IOExceptionName} && second in {ServletExceptionName, IOExceptionName};
    ThrowsPairRead(first, second);
    HandlerSignatureParts(qualifiedName, " " + ThrowsKeyword + first + "," + second);
    assert first != second by {
      assert first in {first, second} && second in {first, second};
    }
  }

  /** A handler without a throws clause is rejected. */
  lemma MissingThrowsRejected(qualifiedName: string)
    requires '(' !in qualifiedName && ')' !in qualifiedName
    ensures !MatchSignature(HandlerSignature(qualifiedName, ""))
  {
    HandlerSignatureParts(qualifiedName, "");
    assert Trim("") == "";
    assert Replace("", ThrowsKeyword, "") == "";
    assert ThrownExceptions("") == {""};
  }

  /** A handler that declares only IOException is rejected. */
  lemma SingleExceptionRejected(qualifiedName: string)
    requires '(' !in qualifiedName && ')' !in qualifiedName
    ensures !MatchSignature(HandlerSignature(qualifiedName, " " + ThrowsKeyword + IOExceptionName))
  {
    ExceptionLiterals();
    HandlerSignatureParts(qualifiedName, " " + ThrowsKeyword + IOExceptionName);
    ThrowsClauseRead(IOExceptionName);
    assert ThrownExceptions(" " + ThrowsKeyword + IOExceptionName) == {IOExceptionName};
  }

  // ----- Mapping normalisation -----

  /** The url an annotation maps to: a blank mapping falls back to the Java
      method's name, and a "/" is prepended when missing. */
  function MappingPath(methodName: string, mapping: string): (url: string)
    ensures StartsWith(url, "/")
    ensures IsBlank(mapping) && !StartsWith(methodName, "/") ==> url == "/" + methodName
    ensures IsBlank(mapping) && StartsWith(methodName, "/") ==> url == methodName
    ensures !IsBlank(mapping) && StartsWith(mapping, "/") ==> url == mapping
    ensures !IsBlank(mapping) && !StartsWith(mapping, "/") ==> url == "/" + mapping
  {
    var base := if IsBlank(mapping) then methodName else mapping;
    if StartsWith(base, "/") then base else "/" + base
  }

  /** Normalising a mapping path again changes nothing. */
  lemma MappingPathIdempotent(methodName: string, mapping: string)
    ensures MappingPath(methodName, MappingPath(methodName, mapping)) == MappingPath(methodName, mapping)
  {
    var url := MappingPath(methodName, mapping);
    assert url[0] == '/';
    TrimKeepsFirst(url);
  }

  /** The key the routing table stores for a mapping path still starts with
      "/": trimming never removes the leading slash. */
  lemma MappedKeyStartsWithSlash(methodName: string, mapping: string)
    ensures var key := NormalizeUrl(Some(MappingPath(methodName, mapping)));
      key != [] && key[0] == '/'
  {
    var url := MappingPath(methodName, mapping);
    assert url[0] == '/';
    TrimKeepsFirst(url);
  }

  /** A blank mapping on a method named `name` maps to "/name". */
  lemma BlankMappingUsesMethodName(name: string, mapping: string)
    requires forall i :: 0 <= i < |mapping| ==> IsWhite(mapping[i])
    requires name == [] || name[0] != '/'
    ensures MappingPath(name, mapping) == "/" + name
  {
    BlankIffAllWhite(mapping);
  }

  // ----- Required roles -----

  predicate NoDuplicates<T(==)>(s: seq<T>) {
    forall i, j :: 0 <= i < j < |s| ==> s[i] != s[j]
  }

  /** The `LinkedHashSet` that `initialize` fills from `requiredRoles`, or
      the role whose `add` returned false. */
  function RoleSetOf(roles: seq<string>): (r: Result<seq<string>, string>)
    ensures r.Success? <==> NoDuplicates(roles)
    ensures r.Success? ==> r.value == roles
    ensures r.Failure? ==> exists j :: 0 <= j < |roles| && roles[j] == r.error && roles[j] in roles[..j] && NoDuplicates(roles[..j])
    decreases |roles|
  {
    if roles == [] then Success([])
    else
      var init := roles[..|roles| - 1];
      var last := roles[|roles| - 1];
      assert roles == init + [last];
      match RoleSetOf(init)
      case Failure(role) =>
        assert forall j :: 0 <= j < |init| ==> init[j] == roles[j] && init[..j] == roles[..j];
        Failure(role)
      case Success(roleSet) =>
        if last in roleSet then
          assert roles[..|roles| - 1] == init;
          Failure(last)
        else
          Success(roleSet + [last])
  }

  /** The loop of `initialize` that builds the required-role set, failing
      on the first role that repeats an earlier one. */
  method RequiredRoleSet(roles: seq<string>) returns (r: Result<seq<string>, string>)
    ensures r == RoleSetOf(roles)
  {
    var roleSet: seq<string> := [];
    var i := 0;
    while i < |roles|
      invariant 0 <= i <= |roles|
      invariant RoleSetOf(roles[..i]) == Success(roleSet)
    {
      var role := roles[i];
      assert roles[..i + 1][..i] == roles[..i];
      if role in roleSet {
        RoleFailureSticks(roles, i + 1);
        return Failure(role);
      }
      roleSet := roleSet + [role];
      i := i + 1;
    }
    assert roles[..i] == roles;
    return Success(roleSet);
  }

  /** Once a prefix of the roles has failed, the whole list fails on the same role. */
  lemma {:induction false} RoleFailureSticks(roles: seq<string>, n: nat)
    requires n <= |roles|
    requires RoleSetOf(roles[..n]).Failure?
    ensures RoleSetOf(roles) == RoleSetOf(roles[..n])
    decreases |roles| - n
  {
    if n < |roles| {
      assert roles[..n + 1][..n] == roles[..n];
      RoleFailureSticks(roles, n + 1);
    } else {
      assert roles[..n] == roles;
    }
  }

  // ----- Security chain -----

  /** The handlers of a security chain; their checks are not modelled. */
  datatype SecurityHandler = UserRoleHandler(requiredRoles: seq<string>) | CsrfHandler

  /** `LinkedHashSet.add` on the elements in insertion order. */
  function InsertOrdered<T(==)>(s: seq<T>, x: T): seq<T> {
    if x in s then s else s + [x]
  }

  /** Adding to an ordered set: afterwards it holds exactly the old elements
      and `x`, the old elements keep their places in front, it grows by one
      exactly when `x` is new, and it stays free of duplicates. */
  lemma InsertOrderedAdds<T>(s: seq<T>, x: T)
    ensures var r := InsertOrdered(s, x);
      && (forall y :: y in r <==> y in s || y == x)
      && |s| <= |r| && r[..|s|] == s
      && |r| == |s| + (if x in s then 0 else 1)
      && (NoDuplicates(s) ==> NoDuplicates(r))
  {
  }

  /** `getSecurityHandler`: a fresh chain holding the role handler for the
      required roles first and then the shared CSRF handler. */
  function GetSecurityHandler(requiredRoles: seq<string>): (chain: seq<SecurityHandler>)
    ensures chain == [UserRoleHandler(requiredRoles), CsrfHandler]
  {
    InsertOrdered(InsertOrdered([], UserRoleHandler(requiredRoles)), CsrfHandler)
  }

  // ----- Registration -----

  /** `CallerAction`: the annotated method, identified by its position among
      the descriptors, wrapped with its security chain. */
  datatype CallerAction = CallerAction(index: nat, methodName: string, security: seq<SecurityHandler>)

  /** What reflection finds for one `@WebAction` annotation: the method's
      name and generic signature, and the annotation's attributes. */
  datatype WebActionDescriptor = WebActionDescriptor(
    methodName: string,
    signature: string,
    mapping: string,
    httpMethod: HttpMethod,
    requiredRoles: seq<string>,
    defaultAction: bool)

  /** Why `initialize` throws. */
  datatype InitError = InvalidSignature(signature: string) | DuplicateRole(role: string) | RegistrationFailed(cause: RegistrationError)

  /** The routing table after (part of) `initialize`, and how it ended. A
      failure leaves every registration made before it in place. */
  datatype InitResult = InitResult(table: Table<CallerAction>, outcome: Outcome<InitError>)

  /** ActionServlet.DEFAULT_URL, the root path. */
  const DefaultUrl: string := RootPath

  /** The action registered for the `i`-th descriptor once its roles are distinct. */
  function ActionFor(i: nat, d: WebActionDescriptor): CallerAction {
    CallerAction(i, d.methodName, GetSecurityHandler(d.requiredRoles))
  }

  /** The registrations of one annotated method: its mapping path and, for
      a default action, the default url as well. */
  function RegisterRoutes(t: Table<CallerAction>, action: CallerAction, d: WebActionDescriptor): InitResult {
    match Register(t, Some(action), Some(d.httpMethod), Some(MappingPath(d.methodName, d.mapping)))
    case Failure(e) => InitResult(t, Fail(RegistrationFailed(e)))
    case Success(t1) =>
      if !d.defaultAction then InitResult(t1, Pass)
      else match Register(t1, Some(action), Some(d.httpMethod), Some(DefaultUrl))
        case Failure(e) => InitResult(t1, Fail(RegistrationFailed(e)))
        case Success(t2) => InitResult(t2, Pass)
  }

  /** One pass of the annotation loop: check the signature, build the role
      set, then register the action. */
  function RegisterDescriptor(t: Table<CallerAction>, i: nat, d: WebActionDescriptor): InitResult {
    if !MatchSignature(d.signature) then InitResult(t, Fail(InvalidSignature(d.signature)))
    else match RoleSetOf(d.requiredRoles)
      case Failure(role) => InitResult(t, Fail(DuplicateRole(role)))
      case Success(roleSet) => RegisterRoutes(t, CallerAction(i, d.methodName, GetSecurityHandler(roleSet)), d)
  }

  /** A step of the annotation loop: registers one descriptor, given its index. */
  type LoopStep = (Table<CallerAction>, nat, WebActionDescriptor) -> InitResult

  /** The annotation loop: `step` applied to each descriptor in turn, on the
      table the previous ones left, stopping at the first throw. */
  function Loop(step: LoopStep, t: Table<CallerAction>, ds: seq<WebActionDescriptor>): InitResult
    decreases |ds|
  {
    if ds == [] then InitResult(t, Pass)
    else
      var prev := Loop(step, t, ds[..|ds| - 1]);
      if prev.outcome.Fail? then prev else step(prev.table, |ds| - 1, ds[|ds| - 1])
  }

  /** The loop of `initialize`. */
  function InitAll(t: Table<CallerAction>, ds: seq<WebActionDescriptor>): InitResult {
    Loop(RegisterDescriptor, t, ds)
  }

  /** A step that never removes or replaces an existing binding. */
  ghost predicate KeepsBindings(step: LoopStep) {
    forall t, i, d, m, path :: Bound(t, m, path) ==> Find(step(t, i, d).table, m, path) == Find(t, m, path)
  }

  /** The prefix of `n + 1` descriptors is the prefix of `n` and one more step. */
  lemma LoopUnfold(step: LoopStep, t: Table<CallerAction>, ds: seq<WebActionDescriptor>, n: nat)
    requires n < |ds|
    ensures var prev := Loop(step, t, ds[..n]);
      Loop(step, t, ds[..n + 1]) == if prev.outcome.Fail? then prev else step(prev.table, n, ds[n])
  {
    assert ds[..n + 1][..n] == ds[..n];
  }

  /** A failure in a prefix of the descriptors is the failure of the whole loop. */
  lemma {:induction false} LoopFailureSticks(step: LoopStep, t: Table<CallerAction>, ds: seq<WebActionDescriptor>, n: nat)
    requires n <= |ds|
    requires Loop(step, t, ds[..n]).outcome.Fail?
    ensures Loop(step, t, ds) == Loop(step, t, ds[..n])
    decreases |ds| - n
  {
    if n < |ds| {
      LoopUnfold(step, t, ds, n);
      LoopFailureSticks(step, t, ds, n + 1);
    } else {
      assert ds[..n] == ds;
    }
  }

  /** A loop that succeeds succeeded on every prefix. */
  lemma {:induction false} LoopPassPrefix(step: LoopStep, t: Table<CallerAction>, ds: seq<WebActionDescriptor>, n: nat)
    requires n <= |ds|
    requires Loop(step, t, ds).outcome.Pass?
    ensures Loop(step, t, ds[..n]).outcome.Pass?
    decreases |ds| - n
  {
    if n < |ds| {
      LoopPassPrefix(step, t, ds, n + 1);
      LoopUnfold(step, t, ds, n);
    } else {
      assert ds[..n] == ds;
    }
  }

  /** With a step that keeps bindings, every binding made by a prefix of the
      loop survives to its end, whether the loop succeeds or throws. */
  lemma {:induction false} LoopKeepsPrefix(step: LoopStep, t: Table<CallerAction>, ds: seq<WebActionDescriptor>, n: nat, m: HttpMethod, path: string)
    requires KeepsBindings(step)
    requires n <= |ds|
    requires Bound(Loop(step, t, ds[..n]).table, m, path)
    ensures Find(Loop(step, t, ds).table, m, path) == Find(Loop(step, t, ds[..n]).table, m, path)
    decreases |ds|
  {
    if n < |ds| {
      var init := ds[..|ds| - 1];
      assert init[..n] == ds[..n];
      LoopKeepsPrefix(step, t, init, n, m, path);
      LoopUnfold(step, t, ds, |ds| - 1);
      assert ds[..|ds|] == ds;
    } else {
      assert ds[..n] == ds;
    }
  }

  /** Registering an action never removes or replaces an existing binding. */
  lemma RegisterRoutesKeeps(t: Table<CallerAction>, action: CallerAction, d: WebActionDescriptor, m: HttpMethod, path: string)
    requires Bound(t, m, path)
    ensures Find(RegisterRoutes(t, action, d).table, m, path) == Find(t, m, path)
  {
  }

  /** One descriptor never removes or replaces an existing binding. */
  lemma RegisterDescriptorKeeps()
    ensures KeepsBindings(RegisterDescriptor)
  {
    forall t, i, d, m, path | Bound(t, m, path)
      ensures Find(RegisterDescriptor(t, i, d).table, m, path) == Find(t, m, path)
    {
      if MatchSignature(d.signature) && RoleSetOf(d.requiredRoles).Success? {
        RegisterRoutesKeeps(t, CallerAction(i, d.methodName, GetSecurityHandler(d.requiredRoles)), d, m, path);
      }
    }
  }

  /** Registrations that succeed bind the action at the mapped url and, for
      a default action, at the root path. */
  lemma RegisterRoutesBinds(t: Table<CallerAction>, action: CallerAction, d: WebActionDescriptor)
    requires RegisterRoutes(t, action, d).outcome.Pass?
    ensures var table := RegisterRoutes(t, action, d).table;
      && Find(table, d.httpMethod, NormalizeUrl(Some(MappingPath(d.methodName, d.mapping)))) == Some(action)
      && (d.defaultAction ==> Find(table, d.httpMethod, RootPath) == Some(action))
  {
    RootPathTrimmed();
    assert NormalizeUrl(Some(DefaultUrl)) == RootPath;
  }

  /** A descriptor that registers is valid and binds its action at its
      mapped url and, for a default action, at the default url. */
  lemma RegisterDescriptorBinds(t: Table<CallerAction>, i: nat, d: WebActionDescriptor)
    requires RegisterDescriptor(t, i, d).outcome.Pass?
    ensures MatchSignature(d.signature) && NoDuplicates(d.requiredRoles)
    ensures var table := RegisterDescriptor(t, i, d).table;
      && Find(table, d.httpMethod, NormalizeUrl(Some(MappingPath(d.methodName, d.mapping)))) == Some(ActionFor(i, d))
      && (d.defaultAction ==> Find(table, d.httpMethod, RootPath) == Some(ActionFor(i, d)))
  {
    assert RegisterDescriptor(t, i, d) == RegisterRoutes(t, ActionFor(i, d), d);
    RegisterRoutesBinds(t, ActionFor(i, d), d);
  }

  /** The keys a descriptor asks for: its mapped url and, for a default
      action, the root path, both under its own HTTP method. */
  ghost predicate Binds(d: WebActionDescriptor, m: HttpMethod, path: string) {
    m == d.httpMethod && (path == NormalizeUrl(Some(MappingPath(d.methodName, d.mapping))) || (d.defaultAction && path == RootPath))
  }

  /** Every binding after registering an action was there before, or is
      one of the descriptor's own keys bound to that action; this holds
      whether the registrations succeed or throw half-way. */
  lemma RegisterRoutesBindsOnly(t: Table<CallerAction>, action: CallerAction, d: WebActionDescriptor, m: HttpMethod, path: string)
    requires Bound(RegisterRoutes(t, action, d).table, m, path)
    ensures var table := RegisterRoutes(t, action, d).table;
      Find(table, m, path) == Find(t, m, path) || (Binds(d, m, path) && Find(table, m, path) == Some(action))
  {
    RootPathTrimmed();
    assert NormalizeUrl(Some(DefaultUrl)) == RootPath;
  }

  /** One pass of the loop binds nothing but the `i`-th descriptor's keys,
      and those to its action. */
  lemma RegisterDescriptorBindsOnly(t: Table<CallerAction>, i: nat, d: WebActionDescriptor, m: HttpMethod, path: string)
    requires Bound(RegisterDescriptor(t, i, d).table, m, path)
    ensures var table := RegisterDescriptor(t, i, d).table;
      Find(table, m, path) == Find(t, m, path) || (Binds(d, m, path) && Find(table, m, path) == Some(ActionFor(i, d)))
  {
    if MatchSignature(d.signature) && RoleSetOf(d.requiredRoles).Success? {
      assert RegisterDescriptor(t, i, d) == RegisterRoutes(t, ActionFor(i, d), d);
      RegisterRoutesBindsOnly(t, ActionFor(i, d), d, m, path);
    }
  }

  /** A bad signature, then a repeated role, is reported before anything
      is registered, and leaves the table as it was. */
  lemma RegisterDescriptorRejects(t: Table<CallerAction>, i: nat, d: WebActionDescriptor)
    requires !MatchSignature(d.signature) || !NoDuplicates(d.requiredRoles)
    ensures var r := RegisterDescriptor(t, i, d);
      && r.table == t && r.outcome.Fail?
      && (!MatchSignature(d.signature) ==> r.outcome.error == InvalidSignature(d.signature))
      && (MatchSignature(d.signature) ==> r.outcome.error.DuplicateRole? && r.outcome.error.role in d.requiredRoles)
  {
  }

  /** Registering an action can only fail on a duplicate route under the
      descriptor's HTTP method. */
  lemma RegisterRoutesDuplicate(t: Table<CallerAction>, action: CallerAction, d: WebActionDescriptor)
    requires RegisterRoutes(t, action, d).outcome.Fail?
    ensures var e := RegisterRoutes(t, action, d).outcome.error;
      e.RegistrationFailed? && e.cause.DuplicateRoute? && e.cause.httpMethod == d.httpMethod
  {
  }

  /** A valid descriptor can only fail on a duplicate route under its own
      HTTP method. */
  lemma RegisterDescriptorDuplicate(t: Table<CallerAction>, i: nat, d: WebActionDescriptor)
    requires MatchSignature(d.signature) && NoDuplicates(d.requiredRoles)
    requires RegisterDescriptor(t, i, d).outcome.Fail?
    ensures var e := RegisterDescriptor(t, i, d).outcome.error;
      e.RegistrationFailed? && e.cause.DuplicateRoute? && e.cause.httpMethod == d.httpMethod
  {
    assert RegisterDescriptor(t, i, d) == RegisterRoutes(t, ActionFor(i, d), d);
    RegisterRoutesDuplicate(t, ActionFor(i, d), d);
  }

  /** A default action whose method already has a root binding throws. */
  lemma RegisterDescriptorRootTaken(t: Table<CallerAction>, i: nat, d: WebActionDescriptor)
    requires d.defaultAction && Bound(t, d.httpMethod, RootPath)
    ensures RegisterDescriptor(t, i, d).outcome.Fail?
  {
    RootPathTrimmed();
    assert NormalizeUrl(Some(DefaultUrl)) == RootPath;
  }

  /** After a successful `initialize`, every descriptor is a valid handler
      and its action resolves at its mapped url; a default action also
      resolves at the default url, that is, both for a request without
      extra path and for "/". */
  lemma InitBindsEveryDescriptor(t: Table<CallerAction>, ds: seq<WebActionDescriptor>, i: nat)
    requires InitAll(t, ds).outcome.Pass?
    requires i < |ds|
    ensures MatchSignature(ds[i].signature) && NoDuplicates(ds[i].requiredRoles)
    ensures var table := InitAll(t, ds).table;
      var d := ds[i];
      && Resolve(table, Name(d.httpMethod), Some(NormalizeUrl(Some(MappingPath(d.methodName, d.mapping))))) == Some(ActionFor(i, d))
      && (d.defaultAction ==>
            && Resolve(table, Name(d.httpMethod), None) == Some(ActionFor(i, d))
            && Resolve(table, Name(d.httpMethod), Some(RootPath)) == Some(ActionFor(i, d)))
  {
    var d := ds[i];
    LoopPassPrefix(RegisterDescriptor, t, ds, i + 1);
    LoopUnfold(RegisterDescriptor, t, ds, i);
    var prev := InitAll(t, ds[..i]);
    var step := InitAll(t, ds[..i + 1]);
    assert step == RegisterDescriptor(prev.table, i, d);
    RegisterDescriptorBinds(prev.table, i, d);
    var key := NormalizeUrl(Some(MappingPath(d.methodName, d.mapping)));
    RegisterDescriptorKeeps();
    LoopKeepsPrefix(RegisterDescriptor, t, ds, i + 1, d.httpMethod, key);
    if d.defaultAction {
      LoopKeepsPrefix(RegisterDescriptor, t, ds, i + 1, d.httpMethod, RootPath);
    }
    ValueOfName(d.httpMethod);
  }

  /** Nothing but the descriptors is bound by `initialize`, whether it
      succeeds or throws: every binding of the final table was already in
      the starting table, or is a key of some descriptor bound to that
      descriptor's action. */
  lemma {:induction false} InitBindsOnlyDescriptors(t: Table<CallerAction>, ds: seq<WebActionDescriptor>, m: HttpMethod, path: string)
    requires Bound(InitAll(t, ds).table, m, path)
    ensures var found := Find(InitAll(t, ds).table, m, path);
      found == Find(t, m, path) || exists i :: 0 <= i < |ds| && Binds(ds[i], m, path) && found == Some(ActionFor(i, ds[i]))
    decreases |ds|
  {
    if ds != [] {
      var n := |ds| - 1;
      var init := ds[..n];
      LoopUnfold(RegisterDescriptor, t, ds, n);
      assert ds[..n + 1] == ds;
      var prev := InitAll(t, init);
      if prev.outcome.Pass? {
        RegisterDescriptorBindsOnly(prev.table, n, ds[n], m, path);
        if Find(InitAll(t, ds).table, m, path) == Find(prev.table, m, path) {
          InitBindsOnlyDescriptors(t, init, m, path);
          forall i | 0 <= i < n ensures init[i] == ds[i] { }
        }
      } else {
        InitBindsOnlyDescriptors(t, init, m, path);
        forall i | 0 <= i < n ensures init[i] == ds[i] { }
      }
    }
  }

  /** With well-formed descriptors (a matching signature, no repeated
      role) the only way `initialize` throws is a duplicate route. */
  lemma {:induction false} InitFailureIsDuplicate(t: Table<CallerAction>, ds: seq<WebActionDescriptor>)
    requires forall k :: 0 <= k < |ds| ==> MatchSignature(ds[k].signature) && NoDuplicates(ds[k].requiredRoles)
    requires InitAll(t, ds).outcome.Fail?
    ensures InitAll(t, ds).outcome.error.RegistrationFailed?
    ensures InitAll(t, ds).outcome.error.cause.DuplicateRoute?
    decreases |ds|
  {
    var pre := ds[..|ds| - 1];
    var prev := InitAll(t, pre);
    if prev.outcome.Fail? {
      forall k | 0 <= k < |pre|
        ensures MatchSignature(pre[k].signature) && NoDuplicates(pre[k].requiredRoles)
      {
        assert pre[k] == ds[k];
      }
      InitFailureIsDuplicate(t, pre);
    } else {
      RegisterDescriptorDuplicate(prev.table, |ds| - 1, ds[|ds| - 1]);
    }
  }

  /** The registrations up to the second default action for one HTTP method
      already fail. */
  lemma SecondDefaultActionFails(t: Table<CallerAction>, ds: seq<WebActionDescriptor>, i: nat, j: nat)
    requires i < j < |ds|
    requires ds[i].defaultAction && ds[j].defaultAction
    requires ds[i].httpMethod == ds[j].httpMethod
    ensures InitAll(t, ds[..j + 1]).outcome.Fail?
  {
    var pre := ds[..j];
    var prev := InitAll(t, pre);
    LoopUnfold(RegisterDescriptor, t, ds, j);
    if prev.outcome.Pass? {
      assert pre[i] == ds[i];
      InitBindsEveryDescriptor(t, pre, i);
      ValueOfName(ds[i].httpMethod);
      assert Bound(prev.table, ds[j].httpMethod, RootPath);
      RegisterDescriptorRootTaken(prev.table, j, ds[j]);
    }
  }

  /** Two default actions for the same HTTP method make `initialize` throw:
      the second one's default-url registration is a duplicate, and when
      every descriptor up to it is well formed that duplicate route is the
      error reported. */
  lemma TwoDefaultActionsFail(t: Table<CallerAction>, ds: seq<WebActionDescriptor>, i: nat, j: nat)
    requires i < j < |ds|
    requires ds[i].defaultAction && ds[j].defaultAction
    requires ds[i].httpMethod == ds[j].httpMethod
    ensures InitAll(t, ds).outcome.Fail?
    ensures (forall k :: 0 <= k <= j ==> MatchSignature(ds[k].signature) && NoDuplicates(ds[k].requiredRoles)) ==>
      InitAll(t, ds).outcome.error.RegistrationFailed? && InitAll(t, ds).outcome.error.cause.DuplicateRoute?
  {
    SecondDefaultActionFails(t, ds, i, j);
    LoopFailureSticks(RegisterDescriptor, t, ds, j + 1);
    if forall k :: 0 <= k <= j ==> MatchSignature(ds[k].signature) && NoDuplicates(ds[k].requiredRoles) {
      var init := ds[..j + 1];
      forall k | 0 <= k < |init|
        ensures MatchSignature(init[k].signature) && NoDuplicates(init[k].requiredRoles)
      {
        assert init[k] == ds[k];
      }
      InitFailureIsDuplicate(t, init);
    }
  }

  /** A descriptor with a bad signature or a repeated role makes
      `initialize` throw. */
  lemma InvalidDescriptorFails(t: Table<CallerAction>, ds: seq<WebActionDescriptor>, i: nat)
    requires i < |ds|
    requires !MatchSignature(ds[i].signature) || !NoDuplicates(ds[i].requiredRoles)
    ensures InitAll(t, ds).outcome.Fail?
  {
    LoopUnfold(RegisterDescriptor, t, ds, i);
    if InitAll(t, ds[..i]).outcome.Fail? {
      LoopFailureSticks(RegisterDescriptor, t, ds, i);
    } else {
      LoopFailureSticks(RegisterDescriptor, t, ds, i + 1);
    }
  }

  /** `initialize` does not undo its registrations when it throws, and
      leaves `initialized` false, so the next request runs it again on the
      partly filled table: once the first descriptor had registered, that
      retry throws a duplicate-route error for it instead of the original
      cause. */
  lemma RetryAfterFailureReportsDuplicate(ds: seq<WebActionDescriptor>)
    requires ds != []
    requires InitAll(map[], ds[..1]).outcome.Pass?
    requires InitAll(map[], ds).outcome.Fail?
    ensures var d := ds[0];
      InitAll(InitAll(map[], ds).table, ds).outcome ==
        Fail(RegistrationFailed(DuplicateRoute(d.httpMethod, NormalizeUrl(Some(MappingPath(d.methodName, d.mapping))))))
  {
    var d := ds[0];
    var key := NormalizeUrl(Some(MappingPath(d.methodName, d.mapping)));
    LoopUnfold(RegisterDescriptor, map[], ds, 0);
    var first := InitAll(map[], ds[..1]);
    assert first == RegisterDescriptor(map[], 0, d);
    assert Bound(first.table, d.httpMethod, key);
    RegisterDescriptorKeeps();
    LoopKeepsPrefix(RegisterDescriptor, map[], ds, 1, d.httpMethod, key);
    var partial := InitAll(map[], ds).table;
    assert Bound(partial, d.httpMethod, key);
    LoopUnfold(RegisterDescriptor, partial, ds, 0);
    assert InitAll(partial, ds[..1]) == RegisterDescriptor(partial, 0, d);
    LoopFailureSticks(RegisterDescriptor, partial, ds, 1);
  }

  // ----- Per-request lifecycle -----

  /** The observable effects of ActionServlet's `service`. */
  datatype Event = BeforeAction | RunAction(action: CallerAction) | AfterAction | OnNotFound | SendError(status: int)

  /** The steps run for a resolved action: `beforeAction`, the action, `afterAction`. */
  function ServiceSteps(action: CallerAction): seq<Planned<Event>> {
    [Planned(BeforeStep, BeforeAction), Planned(ActionStep, RunAction(action)), Planned(AfterStep, AfterAction)]
  }

  /** The lifecycle of one request given what lookup found. There is no
      error routing: the first exception propagates. `customNotFound` says
      whether `onNotFound` is overridden; the default sends 404. */
  function Serve(found: Option<CallerAction>, customNotFound: bool, faults: Faults): (r: Run<Event>)
    ensures r.trace != []
    ensures found.None? ==> |r.trace| == 1
    ensures found.Some? ==> 1 <= |r.trace| <= 3 && r.trace[0] == BeforeAction
    ensures r.exit.Propagated? ==> r.exit.failure in faults.Values
  {
    match found
    case None =>
      Run([if customNotFound then OnNotFound else SendError(ScNotFound)],
          if NotFoundStep in faults then Propagated(faults[NotFoundStep]) else Completed)
    case Some(action) =>
      var p := RunPlan(ServiceSteps(action), faults);
      Run(p.done, if p.failure.None? then Completed else Propagated(p.failure.value))
  }

  /** With no action found only `onNotFound` runs, by default as a 404,
      and an exception it throws escapes. */
  lemma ServeNotFound(customNotFound: bool, faults: Faults)
    ensures var run := Serve(None, customNotFound, faults);
      && run.trace == [if customNotFound then OnNotFound else SendError(ScNotFound)]
      && (forall e :: e in run.trace ==> e != BeforeAction && e != AfterAction && !e.RunAction?)
      && run.exit == (if NotFoundStep in faults then Propagated(faults[NotFoundStep]) else Completed)
  {
  }

  /** With an action found and nothing thrown, the order is `beforeAction`,
      the action, `afterAction`. */
  lemma ServeOrder(action: CallerAction, customNotFound: bool, faults: Faults)
    requires BeforeStep !in faults && ActionStep !in faults && AfterStep !in faults
    ensures Serve(Some(action), customNotFound, faults) == Run([BeforeAction, RunAction(action), AfterAction], Completed)
  {
    var plan := ServiceSteps(action);
    assert FirstFault(plan, faults) == 3;
    assert Events(plan) == [BeforeAction, RunAction(action), AfterAction];
  }

  /** Whichever of `beforeAction`, the action and `afterAction` throws
      first, the request ends right after it and that exception escapes
      unchanged. */
  lemma ServePropagates(action: CallerAction, customNotFound: bool, faults: Faults)
    requires FirstFault(ServiceSteps(action), faults) < 3
    ensures var plan := ServiceSteps(action);
      var k := FirstFault(plan, faults);
      Serve(Some(action), customNotFound, faults) == Run(Events(plan[..k + 1]), Propagated(faults[plan[k].step]))
  {
  }

  /** In particular a failing `beforeAction` stops the request before the
      action, and a failing action is never followed by `afterAction`. */
  lemma ServeStopsAtFailure(action: CallerAction, customNotFound: bool, faults: Faults)
    ensures BeforeStep in faults ==>
      Serve(Some(action), customNotFound, faults) == Run([BeforeAction], Propagated(faults[BeforeStep]))
    ensures BeforeStep !in faults && ActionStep in faults ==>
      Serve(Some(action), customNotFound, faults) == Run([BeforeAction, RunAction(action)], Propagated(faults[ActionStep]))
  {
    var plan := ServiceSteps(action);
    if BeforeStep in faults {
      assert FirstFault(plan, faults) == 0;
      assert Events(plan[..1]) == [BeforeAction];
    } else if ActionStep in faults {
      assert FirstFault(plan, faults) == 1;
      assert Events(plan[..2]) == [BeforeAction, RunAction(action)];
    }
  }

  /** ActionServlet: its routing table, its descriptors, and whether
      `initialize` has completed. */
  class ActionServlet {
    const descriptors: seq<WebActionDescriptor>
    const customNotFound: bool
    const dispatcher: ActionDispatcher<CallerAction>
    var initialized: bool

    constructor (descriptors: seq<WebActionDescriptor>, customNotFound: bool)
      ensures this.descriptors == descriptors && this.customNotFound == customNotFound
      ensures fresh(dispatcher) && dispatcher.actionMap == map[] && !initialized
    {
      this.descriptors := descriptors;
      this.customNotFound := customNotFound;
      dispatcher := new ActionDispatcher();
      initialized := false;
    }

    /** `initialize`: does nothing once initialized; otherwise registers
        every descriptor and sets `initialized`, or throws at the first bad
        descriptor, leaving earlier registrations in place and `initialized`
        false. */
    method Initialize() returns (r: Outcome<InitError>)
      modifies this, dispatcher
      ensures old(initialized) ==> r == Pass && initialized && dispatcher.actionMap == old(dispatcher.actionMap)
      ensures !old(initialized) ==>
        && InitAll(old(dispatcher.actionMap), descriptors) == InitResult(dispatcher.actionMap, r)
        && initialized == r.Pass?
    {
      if initialized {
        return Pass;
      }
      ghost var start := dispatcher.actionMap;
      var i := 0;
      while i < |descriptors|
        invariant 0 <= i <= |descriptors|
        invariant !initialized
        invariant InitAll(start, descriptors[..i]) == InitResult(dispatcher.actionMap, Pass)
      {
        var d := descriptors[i];
        ghost var before := dispatcher.actionMap;
        assert descriptors[..i + 1][..i] == descriptors[..i];
        assert InitAll(start, descriptors[..i + 1]) == RegisterDescriptor(before, i, d);
        if !MatchSignature(d.signature) {
          r := Fail(InvalidSignature(d.signature));
          LoopFailureSticks(RegisterDescriptor, start, descriptors, i + 1);
          return;
        }
        var roles := RequiredRoleSet(d.requiredRoles);
        if roles.Failure? {
          r := Fail(DuplicateRole(roles.error));
          LoopFailureSticks(RegisterDescriptor, start, descriptors, i + 1);
          return;
        }
        var url := MappingPath(d.methodName, d.mapping);
        var action := CallerAction(i, d.methodName, GetSecurityHandler(roles.value));
        var reg := dispatcher.RegisterAction(Some(action), Some(d.httpMethod), Some(url));
        if reg.Fail? {
          r := Fail(RegistrationFailed(reg.error));
          LoopFailureSticks(RegisterDescriptor, start, descriptors, i + 1);
          return;
        }
        if d.defaultAction {
          reg := dispatcher.RegisterAction(Some(action), Some(d.httpMethod), Some(DefaultUrl));
          if reg.Fail? {
            r := Fail(RegistrationFailed(reg.error));
            LoopFailureSticks(RegisterDescriptor, start, descriptors, i + 1);
            return;
          }
        }
        i := i + 1;
      }
      assert descriptors[..i] == descriptors;
      initialized := true;
      return Pass;
    }

    /** `service`: initialize on first use (its failure escapes), then
        resolve; with no action run `onNotFound`, otherwise `beforeAction`,
        the action and `afterAction`, letting any exception escape. */
    method Service(req: Request, faults: Faults) returns (r: Result<Run<Event>, InitError>)
      modifies this, dispatcher
      ensures var init := if old(initialized) then InitResult(old(dispatcher.actionMap), Pass)
                          else InitAll(old(dispatcher.actionMap), descriptors);
        && dispatcher.actionMap == init.table
        && initialized == (old(initialized) || init.outcome.Pass?)
        && r == (if init.outcome.Fail? then Failure(init.outcome.error)
                 else Success(Serve(Resolve(init.table, req.requestMethod, req.pathInfo), customNotFound, faults)))
    {
      if !initialized {
        var init := Initialize();
        if init.Fail? {
          return Failure(init.error);
        }
      }
      var action := dispatcher.GetAction(req);
      if action.None? {
        var event := if customNotFound then OnNotFound else SendError(ScNotFound);
        if NotFoundStep in faults {
          return Success(Run([event], Propagated(faults[NotFoundStep])));
        }
        return Success(Run([event], Completed));
      }
      ghost var plan := ServiceSteps(action.value);
      var trace := [BeforeAction];
      if BeforeStep in faults {
        assert FirstFault(plan, faults) == 0 && plan[..1] == [plan[0]];
        return Success(Run(trace, Propagated(faults[BeforeStep])));
      }
      trace := trace + [RunAction(action.value)];
      if ActionStep in faults {
        assert FirstFault(plan, faults) == 1 && Events(plan[..2]) == trace;
        return Success(Run(trace, Propagated(faults[ActionStep])));
      }
      trace := trace + [AfterAction];
      if AfterStep in faults {
        assert plan[0].step !in faults && plan[1].step !in faults && plan[2].step in faults;
        assert FirstFault(plan, faults) == 2;
        assert plan[..3] == plan;
        assert Events(plan) == trace;
        return Success(Run(trace, Propagated(faults[AfterStep])));
      }
      assert FirstFault(plan, faults) == 3 && Events(plan) == trace;
      return Success(Run(trace, Completed));
    }
  }
}
