# Action dispatching of the REST controller framework

This project is a Dafny model of the request-dispatching core of
agapsys/rest-controller-framework, with proofs about it. It covers three parts:

- **`ActionDispatcher`**: the routing table. It maps an HTTP method and a
  url to an action. Registration normalizes the url: a null or blank url
  becomes the root path `/`, and any other url is trimmed. Registration
  refuses a null action, a null method and a duplicate (method, url)
  key. Lookup turns an unknown method name or an unknown path into "not
  found". A request without extra path is looked up at `/`.
- **`ActionDispatcherServlet`**: one shared routing table plus four
  replaceable hook slots: before, after, error and not-found. Its
  `service` runs before, the action and after inside one `try` block. A
  failure of any of the three is stored under `ATTR_EXCEPTION` and handed
  to the error hook; without an error hook it is rethrown. When no action
  is found, the not-found hook runs, or a 404 is sent.
- **`ActionServlet`**: a servlet whose actions are its own annotated
  methods. On first use `initialize` does four things for each annotated
  method:
  - checks its signature text;
  - builds its required-role set, refusing a repeated role;
  - derives its url (a blank mapping falls back to the method's name, and
    a `/` is prepended when missing);
  - registers it under a security chain, and registers a default action a
    second time at the default url.

  Each request then runs `beforeAction`, the action and `afterAction`, or
  `onNotFound`. There is no error routing: any exception escapes.

Modules, one per concern:

| module | file | contents |
|---|---|---|
| `Wrappers` | wrappers.dfy | `Option`, `Result` and `Outcome` |
| `JavaStrings` | java_strings.dfy | the `java.lang.String` operations the code relies on |
| `Http` | http.dfy | `HttpMethod` and its `valueOf`; the two request properties read |
| `Lifecycle` | lifecycle.dfy | the steps of a request, the exceptions they throw, and how a `try` block of steps runs |
| `Routing` | routing.dfy | the table as a value (`Register`, `Resolve`), and the class `ActionDispatcher` that changes it in place |
| `GlobalHooks` | global_hooks.dfy | `Dispatch` (the lifecycle of `ActionDispatcherServlet.service`), and the class `DispatcherServlet` |
| `AnnotatedServlet` | annotated_servlet.dfy | signature check, role set, mapping path, the annotation loop, `Serve`, and the class `ActionServlet` |

How the model represents the things it cannot run:

- A Java `null` is `None`.
- A thrown exception is an error value: `RegistrationError`, `InitError`,
  or `Exit.Propagated`.
- Which steps of a request throw is an input, `faults` (a map from step
  to exception). This stands for the hooks' and actions' own code, which
  the model does not see.
- A request's observable effects are a trace of events: a hook or action
  ran, a 404 was sent, an attribute was set.
- Reflection is replaced by a list of `WebActionDescriptor`s, one per
  `@WebAction` annotation. Each holds the method's name, its
  `toGenericString()` text and the annotation's attributes.

The imperative parts keep their form. Each method states its new state as
a pure function of its inputs and old state, and the properties are proved
as lemmas about those functions:

- `ActionDispatcher` owns the table and changes it in place.
- `DispatcherServlet` holds the shared table and the hook slots.
- `ActionServlet.Initialize` is the registration loop, with
  `initialized` as a field.
- `Service` is the sequence of steps with early exits.

## Model

| member | source | states |
|---|---|---|
| JavaStrings.TrimStart | src/main/java/com/agapsys/rcf/ActionDispatcher.java:55 | the leading strip of `trim`; its contract gives only the length bound, and what it removes and keeps is stated by `TrimStartSpec` |
| JavaStrings.TrimEnd | src/main/java/com/agapsys/rcf/ActionDispatcher.java:55 | the trailing strip of `trim`; its contract gives only the length bound, and what it removes and keeps is stated by `TrimEndSpec` |
| JavaStrings.Trim | src/main/java/com/agapsys/rcf/ActionDispatcher.java:52-55 | the trimmed string is empty or starts and ends with a character above U+0020 |
| JavaStrings.TrimSlice | src/main/java/com/agapsys/rcf/ActionDispatcher.java:52-55 | the trimmed string is the slice of the input between a prefix and a suffix made only of characters at most U+0020 |
| JavaStrings.TrimStartSpec | src/main/java/com/agapsys/rcf/ActionDispatcher.java:55 | the leading strip removes exactly a white prefix and leaves a suffix that starts non-white |
| JavaStrings.TrimEndSpec | src/main/java/com/agapsys/rcf/ActionDispatcher.java:55 | the trailing strip removes exactly a white suffix and leaves a prefix that ends non-white |
| JavaStrings.TrimIdempotent | src/main/java/com/agapsys/rcf/ActionDispatcher.java:52-55 | trimming twice equals trimming once, so a stored key is already trimmed |
| JavaStrings.BlankIffAllWhite | src/main/java/com/agapsys/rcf/ActionDispatcher.java:52 | `trim().isEmpty()` holds exactly when every character is at most U+0020 |
| JavaStrings.TrimKeepsFirst | src/main/java/com/agapsys/web/action/dispatcher/ActionServlet.java:129-134 | trimming keeps a non-white first character, such as the leading `/` |
| JavaStrings.TrimOfTrimmed | src/main/java/com/agapsys/web/action/dispatcher/ActionServlet.java:61 | a string with non-white ends is left unchanged by trim |
| JavaStrings.IsBlank | src/main/java/com/agapsys/rcf/ActionDispatcher.java:52 | `trim().isEmpty()`; no contract of its own; specified by `BlankIffAllWhite` |
| JavaStrings.StartsWith | src/main/java/com/agapsys/web/action/dispatcher/ActionServlet.java:51 | `String.startsWith`; no contract of its own; specified by `StartsWithConcat` |
| JavaStrings.StartsWithConcat | src/main/java/com/agapsys/web/action/dispatcher/ActionServlet.java:51 | `s.startsWith(p)` holds exactly when `s` is `p` followed by some text |
| JavaStrings.IndexOf | src/main/java/com/agapsys/web/action/dispatcher/ActionServlet.java:54-55 | -1 exactly when the character is absent, otherwise the position of its first occurrence |
| JavaStrings.IndexOfAfter | src/main/java/com/agapsys/web/action/dispatcher/ActionServlet.java:54-55 | in `x + y`, when `x` lacks the character, its first position is inside `y` |
| JavaStrings.Replace | src/main/java/com/agapsys/web/action/dispatcher/ActionServlet.java:61 | `String.replace`, replacing non-overlapping occurrences left to right; no contract of its own; specified by `ReplaceAtOccurrence`, `ReplaceNoOccurrence`, `ReplaceAbsent` and `ReplaceChars` |
| JavaStrings.ReplaceAtOccurrence | src/main/java/com/agapsys/web/action/dispatcher/ActionServlet.java:61 | the leftmost occurrence is the one replaced: when no occurrence starts inside `x`, replacing in `x + target + y` gives `x`, the replacement, then the replacement carried on over `y` |
| JavaStrings.ReplaceNoOccurrence | src/main/java/com/agapsys/web/action/dispatcher/ActionServlet.java:61 | a string in which no position starts an occurrence of the target is left unchanged |
| JavaStrings.ReplaceAbsent | src/main/java/com/agapsys/web/action/dispatcher/ActionServlet.java:61 | `replace` leaves a string unchanged when it lacks a character of the target |
| JavaStrings.ReplaceChars | src/main/java/com/agapsys/web/action/dispatcher/ActionServlet.java:61 | `replace` brings in no character that is neither in the input nor in the replacement, and replacing the target by itself changes nothing |
| JavaStrings.SplitAll | src/main/java/com/agapsys/web/action/dispatcher/ActionServlet.java:61 | at least one piece, and no piece contains the separator |
| JavaStrings.SplitAllJoin | src/main/java/com/agapsys/web/action/dispatcher/ActionServlet.java:61 | joining the pieces with the separator gives the original string back |
| JavaStrings.DropTrailingEmpty | src/main/java/com/agapsys/web/action/dispatcher/ActionServlet.java:61 | the result is a prefix of the pieces whose last piece is non-empty, and every piece it drops is empty |
| JavaStrings.Split | src/main/java/com/agapsys/web/action/dispatcher/ActionServlet.java:61 | no piece contains the separator, and a string without the separator is returned whole |
| JavaStrings.SplitDropsTrailingEmpty | src/main/java/com/agapsys/web/action/dispatcher/ActionServlet.java:61 | with the separator present, the result is the pieces between separators up to the last non-empty one; all the pieces dropped are empty |
| JavaStrings.SplitPair | src/main/java/com/agapsys/web/action/dispatcher/ActionServlet.java:61 | `a,b` splits into exactly `[a, b]` |
| Http.Name | src/main/java/com/agapsys/rcf/ActionDispatcher.java:84 | `Enum.name()`; no contract of its own; specified by `ValueOf`, `ValueOfName` and `NameInjective` |
| Http.ValueOf | src/main/java/com/agapsys/rcf/ActionDispatcher.java:83-87 | a found constant has exactly the given name, and "none" means no constant has that name |
| Http.ValueOfName | src/main/java/com/agapsys/rcf/ActionDispatcher.java:84 | `valueOf(m.name())` is `m` |
| Http.NameInjective | src/main/java/com/agapsys/rcf/ActionDispatcher.java:84 | `valueOf` inverts `name` on every constant, so distinct constants have distinct names |
| Lifecycle.Events | src/main/java/com/agapsys/web/ActionDispatcherServlet.java:82-90 | the events recorded for a plan of steps, one per step, in order |
| Lifecycle.FirstFault | src/main/java/com/agapsys/web/ActionDispatcherServlet.java:82-91 | the first step that throws: no earlier step throws, and that step does |
| Lifecycle.RunPlan | src/main/java/com/agapsys/web/ActionDispatcherServlet.java:82-91 | the steps run up to and including the first one that throws, and its exception is the one caught; with no fault every step runs |
| Routing.NormalizeUrl | src/main/java/com/agapsys/rcf/ActionDispatcher.java:52-55 | a null or blank url becomes `/`; any other url is trimmed; the key is never empty and is already trimmed |
| Routing.RootPathTrimmed | src/main/java/com/agapsys/rcf/ActionDispatcher.java:31 | ROOT_PATH is its own trim |
| Routing.Resolve | src/main/java/com/agapsys/rcf/ActionDispatcher.java:81-100 | lookup finds an action exactly when some constant named by the request method has a binding at the path (the root path when there is no extra path), and then returns that binding |
| Routing.Register | src/main/java/com/agapsys/rcf/ActionDispatcher.java:43-69 | null action, then null method, are rejected; failure happens exactly when the normalized key is already bound (reported as a duplicate); success binds that key and changes no other key |
| Routing.ResolveUnknownMethod | src/main/java/com/agapsys/rcf/ActionDispatcher.java:83-87 | a request method naming no constant resolves to "not found" |
| Routing.ResolveAbsentPathIsRoot | src/main/java/com/agapsys/rcf/ActionDispatcher.java:89-92 | a request without extra path resolves as one for `/` |
| Routing.ResolveFindsBound | src/main/java/com/agapsys/rcf/ActionDispatcher.java:94-99 | lookup returns the bound action for a bound key and "not found" otherwise |
| Routing.ResolveCleared | src/main/java/com/agapsys/rcf/ActionDispatcher.java:72-74 | after clearing, every request is "not found" |
| Routing.RegisterThenResolve | src/main/java/com/agapsys/rcf/ActionDispatcher.java:43-69 | after a successful registration the new action resolves at the normalized key, and every other request resolves as before |
| Routing.SameUrlDistinctMethods | src/main/java/com/agapsys/rcf/ActionDispatcher.java:57-62 | one url under two methods gives two independent bindings; a third method there is "not found" |
| Routing.DuplicateKeepsOriginal | src/main/java/com/agapsys/rcf/ActionDispatcher.java:64-66 | registering a bound key again fails as a duplicate and the first action still resolves |
| Routing.PaddedUrlCollides | src/main/java/com/agapsys/rcf/ActionDispatcher.java:55 | `" /a "` and `"/a"` are the same key |
| Routing.TrailingSlashDistinct | src/main/java/com/agapsys/rcf/ActionDispatcher.java:55 | `"/a"` and `"/a/"` stay distinct keys |
| Routing.BlankUrlIsRoot | src/main/java/com/agapsys/rcf/ActionDispatcher.java:52-53 | a null or all-white url registers at `/` |
| Routing.RegisterAllKeeps | src/main/java/com/agapsys/rcf/ActionDispatcher.java:64-68 | successful registrations never remove or replace a binding |
| Routing.RegisterAllResolves | src/main/java/com/agapsys/rcf/ActionDispatcher.java:43-69 | after registrations that all succeed, each route resolves to its own action |
| Routing.RegisterAllOnlyRoutes | src/main/java/com/agapsys/rcf/ActionDispatcher.java:43-69 | after registrations that all succeed, every binding was there before or was made by one of the routes, for its own action |
| Routing.ReRegisterWithoutClearFails | src/main/java/com/agapsys/rcf/ActionDispatcher.java:64-66 | registering the same routes again without clearing fails |
| Routing.RegisterAllFewerKeys | src/main/java/com/agapsys/rcf/ActionDispatcher.java:43-69 | registrations that succeed on a table also succeed on any table whose bound route keys are among its own |
| Routing.ReRegisterAfterClear | src/main/java/com/agapsys/rcf/ActionDispatcher.java:43-74 | after clearing, the same routes register again without failure and each resolves to the action it resolved to before |
| Routing.ActionDispatcher.constructor | src/main/java/com/agapsys/rcf/ActionDispatcher.java:35 | the table starts empty |
| Routing.ActionDispatcher.RegisterAction | src/main/java/com/agapsys/rcf/ActionDispatcher.java:43-69 | the new table is what `Register` gives; on a throw the table is unchanged and the error is `Register`'s |
| Routing.ActionDispatcher.ClearActions | src/main/java/com/agapsys/rcf/ActionDispatcher.java:72-74 | the table is empty |
| Routing.ActionDispatcher.GetAction | src/main/java/com/agapsys/rcf/ActionDispatcher.java:81-100 | returns `Resolve` of the current table and the request |
| GlobalHooks.Dispatch | src/main/java/com/agapsys/web/ActionDispatcherServlet.java:73-100 | a request always does something observable (one event when no action is found), and an exception that escapes is one a step threw |
| GlobalHooks.NotFoundBranch | src/main/java/com/agapsys/web/ActionDispatcherServlet.java:75-80 | with no action found, only the not-found hook runs, or a 404 is sent; an exception from it escapes and is not routed to the error hook |
| GlobalHooks.HappyPathOrder | src/main/java/com/agapsys/web/ActionDispatcherServlet.java:82-90 | with nothing thrown, the set before hook, the action, then the set after hook run in that order, and the request completes |
| GlobalHooks.ActionFailureRouted | src/main/java/com/agapsys/web/ActionDispatcherServlet.java:86-97 | a failing action skips the after hook; its exception is stored under ATTR_EXCEPTION and the error hook runs |
| GlobalHooks.FailureRoutedToErrorHook | src/main/java/com/agapsys/web/ActionDispatcherServlet.java:82-97 | whichever step throws first, the rest of the block is skipped, that exception is stored and handed to the error hook, and only the error hook's own exception escapes |
| GlobalHooks.FailurePropagatesWithoutErrorHook | src/main/java/com/agapsys/web/ActionDispatcherServlet.java:91-93 | without an error hook the first exception escapes unchanged after the steps up to it |
| GlobalHooks.TryBlockEventsClean | src/main/java/com/agapsys/web/ActionDispatcherServlet.java:82-90 | no step of the `try` block sets the attribute or runs the error hook |
| GlobalHooks.ErrorHookRunsOnlyOnFailure | src/main/java/com/agapsys/web/ActionDispatcherServlet.java:91-97 | the error hook runs exactly when an action was found, an error hook is set and some step of the block threw |
| GlobalHooks.StoredExceptionIsFirstFailure | src/main/java/com/agapsys/web/ActionDispatcherServlet.java:95 | ATTR_EXCEPTION is set only on the error path, to the first exception thrown |
| GlobalHooks.DispatcherServlet.constructor | src/main/java/com/agapsys/web/ActionDispatcherServlet.java:31-36 | empty table and four empty slots |
| GlobalHooks.DispatcherServlet.RegisterAction | src/main/java/com/agapsys/web/ActionDispatcherServlet.java:38-40 | delegates to the shared table with `Register`'s result |
| GlobalHooks.DispatcherServlet.RegisterBeforeAction | src/main/java/com/agapsys/web/ActionDispatcherServlet.java:42-47 | the getter returns the last hook set; no other slot changes |
| GlobalHooks.DispatcherServlet.RegisterAfterAction | src/main/java/com/agapsys/web/ActionDispatcherServlet.java:49-54 | the getter returns the last hook set; no other slot changes |
| GlobalHooks.DispatcherServlet.RegisterErrorAction | src/main/java/com/agapsys/web/ActionDispatcherServlet.java:56-61 | the getter returns the last hook set; no other slot changes |
| GlobalHooks.DispatcherServlet.RegisterNotFoundAction | src/main/java/com/agapsys/web/ActionDispatcherServlet.java:63-68 | the getter returns the last hook set; no other slot changes |
| GlobalHooks.DispatcherServlet.TryBlockRun | src/main/java/com/agapsys/web/ActionDispatcherServlet.java:82-91 | the statements of the `try` block run the current before hook, the action and the current after hook up to the first that throws, as `RunPlan` of that plan says, and catch that step's exception |
| GlobalHooks.DispatcherServlet.Service | src/main/java/com/agapsys/web/ActionDispatcherServlet.java:73-100 | the run is `Dispatch` of what lookup finds and the current hooks, so every lemma about `Dispatch` holds of it |
| AnnotatedServlet.ThrownExceptions | src/main/java/com/agapsys/web/action/dispatcher/ActionServlet.java:61 | the set of names read from the text after `)`; no contract of its own; specified by `ThrowsClauseRead` and `ThrowsPairRead` |
| AnnotatedServlet.MatchSignature | src/main/java/com/agapsys/web/action/dispatcher/ActionServlet.java:46-64 | `matchSignature`; no contract of its own; specified by `MatchSignatureShape`, `MatchSignatureHasOpen`, `HandlerSignatureParts`, `HandlerSignatureAccepted`, `MissingThrowsRejected` and `SingleExceptionRejected` |
| AnnotatedServlet.ParenthesesFound | src/main/java/com/agapsys/web/action/dispatcher/ActionServlet.java:54-57 | in `head(args)rest`, with no parenthesis in `head` and no `)` in `args`, indexOf finds the two parentheses around `args`, and the text after them is `rest` |
| AnnotatedServlet.ArgumentLiterals | src/main/java/com/agapsys/web/action/dispatcher/ActionServlet.java:51-58 | "public void " has no parenthesis and the required argument list has no `)` |
| AnnotatedServlet.ExceptionLiterals | src/main/java/com/agapsys/web/action/dispatcher/ActionServlet.java:61-62 | the two required exception names differ and contain no space or comma |
| AnnotatedServlet.MatchSignatureShape | src/main/java/com/agapsys/web/action/dispatcher/ActionServlet.java:46-57 | an accepted signature starts with "public void " and has a `)`, any `(` coming before it |
| AnnotatedServlet.MatchSignatureHasOpen | src/main/java/com/agapsys/web/action/dispatcher/ActionServlet.java:54-58 | an accepted signature contains a `(`: without one the text before `)` starts with "public void " and is not the argument list |
| AnnotatedServlet.HandlerSignatureParts | src/main/java/com/agapsys/web/action/dispatcher/ActionServlet.java:46-64 | a `public void name(request,response)` signature passes exactly when its throws text reads as exactly the two required exceptions |
| AnnotatedServlet.ThrowsClauseRead | src/main/java/com/agapsys/web/action/dispatcher/ActionServlet.java:61 | trimming and removing "throws " from ` throws list` leaves `list` |
| AnnotatedServlet.ThrowsPairRead | src/main/java/com/agapsys/web/action/dispatcher/ActionServlet.java:61 | ` throws X,Y` reads as the set `{X, Y}` |
| AnnotatedServlet.HandlerSignatureAccepted | src/main/java/com/agapsys/web/action/dispatcher/ActionServlet.java:46-64 | a handler declared `throws ServletException,IOException`, in either order, is accepted |
| AnnotatedServlet.MissingThrowsRejected | src/main/java/com/agapsys/web/action/dispatcher/ActionServlet.java:61-63 | a handler without a throws clause is rejected |
| AnnotatedServlet.SingleExceptionRejected | src/main/java/com/agapsys/web/action/dispatcher/ActionServlet.java:62-63 | a handler declaring only IOException is rejected |
| AnnotatedServlet.MappingPath | src/main/java/com/agapsys/web/action/dispatcher/ActionServlet.java:124-130 | the url starts with `/`; for a blank mapping it is the method name, with `/` prepended when the name lacks one; otherwise it is the mapping, unchanged when it starts with `/` and with `/` prepended when not |
| AnnotatedServlet.MappingPathIdempotent | src/main/java/com/agapsys/web/action/dispatcher/ActionServlet.java:126-130 | normalizing a derived url again changes nothing |
| AnnotatedServlet.MappedKeyStartsWithSlash | src/main/java/com/agapsys/web/action/dispatcher/ActionServlet.java:129-134 | the key the table stores for a derived url still starts with `/` |
| AnnotatedServlet.BlankMappingUsesMethodName | src/main/java/com/agapsys/web/action/dispatcher/ActionServlet.java:126-127 | an all-white mapping on method `name` maps to `/name` |
| AnnotatedServlet.RoleSetOf | src/main/java/com/agapsys/web/action/dispatcher/ActionServlet.java:115-121 | success exactly when the roles are distinct, and then the set keeps their order; a failure names the first role that repeats an earlier one |
| AnnotatedServlet.RequiredRoleSet | src/main/java/com/agapsys/web/action/dispatcher/ActionServlet.java:115-121 | the loop's result is `RoleSetOf` of the roles |
| AnnotatedServlet.RoleFailureSticks | src/main/java/com/agapsys/web/action/dispatcher/ActionServlet.java:118-120 | a duplicate found in a prefix of the roles is the failure of the whole list |
| AnnotatedServlet.InsertOrdered | src/main/java/com/agapsys/web/action/dispatcher/ActionServlet.java:194-196 | `LinkedHashSet.add`; no contract of its own; specified by `InsertOrderedAdds` |
| AnnotatedServlet.InsertOrderedAdds | src/main/java/com/agapsys/web/action/dispatcher/ActionServlet.java:194-196 | `LinkedHashSet.add`: afterwards the set holds exactly the old elements and the new one; the old ones keep their places in front; it grows by one exactly when the element is new; it stays free of duplicates |
| AnnotatedServlet.GetSecurityHandler | src/main/java/com/agapsys/web/action/dispatcher/ActionServlet.java:193-198 | the chain is the role handler for the required roles, then the CSRF handler |
| AnnotatedServlet.RegisterRoutes | src/main/java/com/agapsys/web/action/dispatcher/ActionServlet.java:134-138 | the registrations of one annotated method; no contract of its own; specified by `RegisterRoutesKeeps`, `RegisterRoutesBinds`, `RegisterRoutesBindsOnly` and `RegisterRoutesDuplicate` |
| AnnotatedServlet.RegisterDescriptor | src/main/java/com/agapsys/web/action/dispatcher/ActionServlet.java:112-138 | one pass of the annotation loop; no contract of its own; specified by `RegisterDescriptorKeeps`, `RegisterDescriptorBinds`, `RegisterDescriptorBindsOnly`, `RegisterDescriptorRejects`, `RegisterDescriptorDuplicate` and `RegisterDescriptorRootTaken` |
| AnnotatedServlet.Loop | src/main/java/com/agapsys/web/action/dispatcher/ActionServlet.java:107-141 | the loop over the annotated methods, stopping at the first throw; no contract of its own; specified by `LoopFailureSticks`, `LoopPassPrefix` and `LoopKeepsPrefix` |
| AnnotatedServlet.InitAll | src/main/java/com/agapsys/web/action/dispatcher/ActionServlet.java:105-144 | the registration work of `initialize`; no contract of its own; specified by `InitBindsEveryDescriptor`, `InitBindsOnlyDescriptors`, `InitFailureIsDuplicate`, `SecondDefaultActionFails`, `TwoDefaultActionsFail`, `InvalidDescriptorFails` and `RetryAfterFailureReportsDuplicate` |
| AnnotatedServlet.LoopFailureSticks | src/main/java/com/agapsys/web/action/dispatcher/ActionServlet.java:105-144 | a throw in a prefix ends `initialize` with that throw and that table |
| AnnotatedServlet.LoopPassPrefix | src/main/java/com/agapsys/web/action/dispatcher/ActionServlet.java:105-144 | a loop that succeeds succeeded on every prefix |
| AnnotatedServlet.LoopKeepsPrefix | src/main/java/com/agapsys/web/action/dispatcher/ActionServlet.java:105-144 | every binding made by a prefix survives to the end, whether or not the loop throws |
| AnnotatedServlet.RegisterRoutesKeeps | src/main/java/com/agapsys/web/action/dispatcher/ActionServlet.java:134-138 | registering an action never removes or replaces an existing binding |
| AnnotatedServlet.RegisterDescriptorKeeps | src/main/java/com/agapsys/web/action/dispatcher/ActionServlet.java:112-138 | one pass of the loop keeps every existing binding |
| AnnotatedServlet.RegisterRoutesBinds | src/main/java/com/agapsys/web/action/dispatcher/ActionServlet.java:134-138 | registrations that succeed bind the action at its url, and a default action also at `/` |
| AnnotatedServlet.RegisterDescriptorBinds | src/main/java/com/agapsys/web/action/dispatcher/ActionServlet.java:112-138 | a pass that succeeds had a valid signature and distinct roles, and binds the action with its security chain at its url, and a default action also at `/` |
| AnnotatedServlet.RegisterRoutesBindsOnly | src/main/java/com/agapsys/web/action/dispatcher/ActionServlet.java:134-138 | after registering an action (even one that throws half-way) every binding was there before or is one of the descriptor's keys bound to that action |
| AnnotatedServlet.RegisterDescriptorBindsOnly | src/main/java/com/agapsys/web/action/dispatcher/ActionServlet.java:112-138 | one pass of the loop binds nothing but the descriptor's own keys, to its action |
| AnnotatedServlet.RegisterDescriptorRejects | src/main/java/com/agapsys/web/action/dispatcher/ActionServlet.java:112-121 | a bad signature, then a repeated role, is reported before any registration and leaves the table unchanged |
| AnnotatedServlet.RegisterRoutesDuplicate | src/main/java/com/agapsys/web/action/dispatcher/ActionServlet.java:134-138 | registering an action can only throw for a duplicate route under the descriptor's HTTP method |
| AnnotatedServlet.RegisterDescriptorDuplicate | src/main/java/com/agapsys/web/action/dispatcher/ActionServlet.java:112-138 | a valid descriptor can only make its pass throw for a duplicate route under its own HTTP method |
| AnnotatedServlet.RegisterDescriptorRootTaken | src/main/java/com/agapsys/web/action/dispatcher/ActionServlet.java:136-138 | a default action whose method already has a binding at `/` throws |
| AnnotatedServlet.InitBindsEveryDescriptor | src/main/java/com/agapsys/web/action/dispatcher/ActionServlet.java:105-144 | after a successful initialization every annotated method has a valid signature and distinct roles, and resolves at its url; a default action also resolves for no extra path and for `/` |
| AnnotatedServlet.InitBindsOnlyDescriptors | src/main/java/com/agapsys/web/action/dispatcher/ActionServlet.java:105-144 | whether initialization succeeds or throws, every binding of the final table was there before or is a key of some descriptor, bound to that descriptor's action |
| AnnotatedServlet.InitFailureIsDuplicate | src/main/java/com/agapsys/web/action/dispatcher/ActionServlet.java:105-144 | when every descriptor has a matching signature and no repeated role, initialization can only throw a registration failure for a duplicate route |
| AnnotatedServlet.SecondDefaultActionFails | src/main/java/com/agapsys/web/action/dispatcher/ActionServlet.java:136-138 | the registrations up to the second default action for one HTTP method already throw |
| AnnotatedServlet.TwoDefaultActionsFail | src/main/java/com/agapsys/web/action/dispatcher/ActionServlet.java:136-138 | two default actions for one HTTP method make initialization throw, and when every descriptor up to the second is well formed the error is a registration failure for a duplicate route |
| AnnotatedServlet.InvalidDescriptorFails | src/main/java/com/agapsys/web/action/dispatcher/ActionServlet.java:112-121 | a bad signature or a repeated role anywhere makes initialization throw |
| AnnotatedServlet.RetryAfterFailureReportsDuplicate | src/main/java/com/agapsys/web/action/dispatcher/ActionServlet.java:105-144 | after a throw that followed a successful first registration, running initialization again on the partly filled table throws a duplicate-route error for that first route |
| AnnotatedServlet.Serve | src/main/java/com/agapsys/web/action/dispatcher/ActionServlet.java:200-213 | a request always does something observable; with an action found it starts with `beforeAction` and has at most three events; an exception that escapes is one a step threw |
| AnnotatedServlet.ServeNotFound | src/main/java/com/agapsys/web/action/dispatcher/ActionServlet.java:206-207 | with no action found only `onNotFound` runs (a 404 by default); no before, action or after; an exception from it escapes |
| AnnotatedServlet.ServeOrder | src/main/java/com/agapsys/web/action/dispatcher/ActionServlet.java:208-212 | with nothing thrown: `beforeAction`, the action, `afterAction`, completed |
| AnnotatedServlet.ServePropagates | src/main/java/com/agapsys/web/action/dispatcher/ActionServlet.java:208-212 | whichever of `beforeAction`, the action and `afterAction` throws first, the request stops right after it and that exception escapes unchanged |
| AnnotatedServlet.ServeStopsAtFailure | src/main/java/com/agapsys/web/action/dispatcher/ActionServlet.java:208-211 | a failing `beforeAction` stops the request before the action; a failing action is not followed by `afterAction`; in both cases its exception escapes |
| AnnotatedServlet.ActionServlet.constructor | src/main/java/com/agapsys/web/action/dispatcher/ActionServlet.java:101-103 | empty table, not initialized |
| AnnotatedServlet.ActionServlet.Initialize | src/main/java/com/agapsys/web/action/dispatcher/ActionServlet.java:105-144 | once initialized, nothing changes; otherwise the table and outcome are `InitAll` of the old table and the descriptors, and `initialized` is set exactly on success |
| AnnotatedServlet.ActionServlet.Service | src/main/java/com/agapsys/web/action/dispatcher/ActionServlet.java:200-213 | initializes when needed; an initialization error escapes; otherwise the run is `Serve` of what lookup finds in the resulting table |

## Left out

- `HttpMethod.java` is not part of this model. The enumeration is taken to be GET, POST, PUT, DELETE, PATCH, HEAD and OPTIONS; only the name round trip matters.
- `ActionServlet` uses an `ActionDispatcher` with a `DEFAULT_URL` constant. That class is not part of this model. The model uses the `ActionDispatcher` of `com.agapsys.rcf` for both servlets, with `DEFAULT_URL` taken as its root path `/`. The integration test's requests to `/default` and `/default/` reaching the same default action agree with this.
- A null `getMethod()` is not modelled, since the request method is a string. `valueOf(null)` would throw a NullPointerException that lookup does not catch.
- In `ActionDispatcherServlet` the table and hook slots are static. The model holds them in one `DispatcherServlet` object.
- Thread safety is not modelled: `synchronized initialize`, `volatile initialized`, and the tables being non-thread-safe. Every operation runs alone.
- `AbstractAction`, `SecurityHandlerSet`, `UserRoleSecurityHandler`, `CsrfSecurityHandler` and the default `UserManager` are not modelled. The model records only which handlers form a chain and in what order; their checks, tokens and session handling are left out.
- Reflection is replaced by descriptors:
  - `getDeclaredMethods` and `getAnnotations` become the descriptor list, in enumeration order;
  - `toGenericString()` becomes each descriptor's signature text;
  - `CallerAction`'s `invoke` and its unwrapping of an `InvocationTargetException` into IOException, ServletException or RuntimeException are left out. The action's exception appears only as the input `faults`.
- `matchSignature`'s error message text is not modelled; only the rejection is.
- Also on the signature path: `substring` throwing on misplaced parentheses is folded into the same `InvalidSignature` error.
- Servlet I/O becomes trace events: `processRequest`, `sendError`, `setAttribute`. Responses, bodies and the container are not modelled.
- Which hook or action throws is an input (`faults`): their behaviour is user code outside the core.
- `ProxyServlet`, `ObjectSerializer` and `CheckedException` are outside the dispatching core.
- The url-pattern checks exercised by the integration tests belong to the servlet container, not to this code.
- Looking up the null method key in the `LinkedHashMap` gives null. The model treats an unknown method directly as "not found", with the same result.
- `DispatcherServlet.Service` reads the four hook slots once, when a request starts. The Java `service` reads the static fields again at each step. So the model does not capture a hook or action replacing a slot during a request, on any thread. For example, an action that calls `registerAfterAction(h)` makes `h` that same request's after hook in Java. An action that clears the error hook and then throws makes its own exception propagate.
- `ActionDispatcherServlet` is in package `com.agapsys.web` and uses `ActionDispatcher`, `WebAction` and `HttpMethod` from that package without qualification. `ActionServlet` likewise uses `ActionDispatcher`, `WebAction` and `HttpMethod` from its own package. None of these classes is part of this model. The model takes them to behave like `com.agapsys.rcf.ActionDispatcher` and the `HttpMethod` above.
- ActionDispatcherServlet's getters (`getBeforeAction` and the others) are plain field reads. Their behaviour is stated by the matching `Register...Action` contracts.
