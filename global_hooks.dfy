/** `ActionDispatcherServlet`: one routing table and four single,
    replaceable hook slots (before, after, error, not-found) shared by every
    request, and the request lifecycle that drives them with error routing. */
module GlobalHooks {
  import opened Wrappers
  import opened Http
  import opened Routing
  import opened Lifecycle

  /** ATTR_EXCEPTION: the request attribute that carries a caught failure to
      the error hook. */
  const AttrException: string := "javax.servlet.error.exception"

  /** What a request does that can be observed: a hook or an action runs,
      a 404 is sent, or a request attribute is set. */
  datatype Event<A> =
    | RunHook(step: Step, hook: A)
    | RunAction(action: A)
    | SendError(status: int)
    | SetAttribute(name: string, failure: Throwable)

  /** The four hook slots; `None` is an empty (null) slot. */
  datatype Hooks<A> = Hooks(before: Option<A>, after: Option<A>, error: Option<A>, notFound: Option<A>)

  function OptionalHook<A>(step: Step, hook: Option<A>): seq<Planned<Event<A>>> {
    if hook.Some? then [Planned(step, RunHook(step, hook.value))] else []
  }

  /** The steps of the `try` block for a resolved action: the before hook if
      set, the action, the after hook if set. */
  function TryBlock<A>(action: A, hooks: Hooks<A>): seq<Planned<Event<A>>> {
    OptionalHook(BeforeStep, hooks.before) + [Planned(ActionStep, RunAction(action))] + OptionalHook(AfterStep, hooks.after)
  }

  /** The request lifecycle of `service`, given what lookup found. */
  function Dispatch<A>(found: Option<A>, hooks: Hooks<A>, faults: Faults): (r: Run<Event<A>>)
    ensures r.trace != []
    ensures found.None? ==> |r.trace| == 1
    ensures r.exit.Propagated? ==> r.exit.failure in faults.Values
  {
    match found
    case None =>
      var event := if hooks.notFound.Some? then RunHook(NotFoundStep, hooks.notFound.value) else SendError(ScNotFound);
      Run([event], if NotFoundStep in faults then Propagated(faults[NotFoundStep]) else Completed)
    case Some(action) =>
      var p := RunPlan(TryBlock(action, hooks), faults);
      if p.failure.None? then Run(p.done, Completed)
      else if hooks.error.None? then Run(p.done, Propagated(p.failure.value))
      else
        Run(p.done + [SetAttribute(AttrException, p.failure.value), RunHook(ErrorStep, hooks.error.value)],
            if ErrorStep in faults then Propagated(faults[ErrorStep]) else Completed)
  }

  predicate IsHookOf<A>(e: Event<A>, step: Step) {
    e.RunHook? && e.step == step
  }

  /** With no action found only the not-found handling happens: the hook if
      set, else a 404. Before, action, after and error never run, and a
      failure of the not-found hook is not routed to the error hook. */
  lemma NotFoundBranch<A>(hooks: Hooks<A>, faults: Faults)
    ensures var run := Dispatch(None, hooks, faults);
      && run.trace == [if hooks.notFound.Some? then RunHook(NotFoundStep, hooks.notFound.value) else SendError(ScNotFound)]
      && (forall e :: e in run.trace ==> !e.RunAction? && !e.SetAttribute? && !IsHookOf(e, BeforeStep) && !IsHookOf(e, AfterStep) && !IsHookOf(e, ErrorStep))
      && run.exit == (if NotFoundStep in faults then Propagated(faults[NotFoundStep]) else Completed)
  {
  }

  /** When nothing throws, exactly before (if set), the action and after (if
      set) run, in this order, and the request completes. */
  lemma HappyPathOrder<A>(action: A, hooks: Hooks<A>, faults: Faults)
    requires hooks.before.Some? ==> BeforeStep !in faults
    requires ActionStep !in faults
    requires hooks.after.Some? ==> AfterStep !in faults
    ensures Dispatch(Some(action), hooks, faults) ==
      Run((if hooks.before.Some? then [RunHook(BeforeStep, hooks.before.value)] else [])
          + [RunAction(action)]
          + (if hooks.after.Some? then [RunHook(AfterStep, hooks.after.value)] else []),
          Completed)
  {
    var plan := TryBlock(action, hooks);
    assert FirstFault(plan, faults) == |plan|;
    assert Events(plan) == (if hooks.before.Some? then [RunHook(BeforeStep, hooks.before.value)] else [])
          + [RunAction(action)]
          + (if hooks.after.Some? then [RunHook(AfterStep, hooks.after.value)] else []);
  }

  /** When the action throws and an error hook is set, the after hook is
      skipped, the failure is stored under ATTR_EXCEPTION, the error hook
      runs, and nothing propagates unless the error hook itself throws. */
  lemma ActionFailureRouted<A>(action: A, hooks: Hooks<A>, faults: Faults)
    requires hooks.before.Some? ==> BeforeStep !in faults
    requires ActionStep in faults
    requires hooks.error.Some?
    ensures Dispatch(Some(action), hooks, faults) ==
      Run((if hooks.before.Some? then [RunHook(BeforeStep, hooks.before.value)] else [])
          + [RunAction(action), SetAttribute(AttrException, faults[ActionStep]), RunHook(ErrorStep, hooks.error.value)],
          if ErrorStep in faults then Propagated(faults[ErrorStep]) else Completed)
  {
    var plan := TryBlock(action, hooks);
    var k := if hooks.before.Some? then 1 else 0;
    assert plan[k].step == ActionStep;
    assert FirstFault(plan, faults) == k;
    assert Events(plan[..k + 1]) == (if hooks.before.Some? then [RunHook(BeforeStep, hooks.before.value)] else []) + [RunAction(action)];
  }

  /** Whatever step of the `try` block throws first, with an error hook set
      the rest of the block is skipped, that very exception is stored and
      handed to the error hook, and only a failure of the error hook itself
      escapes. */
  lemma FailureRoutedToErrorHook<A>(action: A, hooks: Hooks<A>, faults: Faults)
    requires hooks.error.Some?
    requires FirstFault(TryBlock(action, hooks), faults) < |TryBlock(action, hooks)|
    ensures var plan := TryBlock(action, hooks);
      var k := FirstFault(plan, faults);
      var run := Dispatch(Some(action), hooks, faults);
      && run.trace == Events(plan[..k + 1]) + [SetAttribute(AttrException, faults[plan[k].step]), RunHook(ErrorStep, hooks.error.value)]
      && run.exit == (if ErrorStep in faults then Propagated(faults[ErrorStep]) else Completed)
  {
  }

  /** Without an error hook the first exception of the `try` block escapes
      unchanged, after the steps up to and including the one that threw. */
  lemma FailurePropagatesWithoutErrorHook<A>(action: A, hooks: Hooks<A>, faults: Faults)
    requires hooks.error.None?
    requires FirstFault(TryBlock(action, hooks), faults) < |TryBlock(action, hooks)|
    ensures var plan := TryBlock(action, hooks);
      var k := FirstFault(plan, faults);
      Dispatch(Some(action), hooks, faults) == Run(Events(plan[..k + 1]), Propagated(faults[plan[k].step]))
  {
  }

  /** No step of the `try` block stores an exception or runs the error hook. */
  lemma TryBlockEventsClean<A>(action: A, hooks: Hooks<A>, n: nat)
    requires n <= |TryBlock(action, hooks)|
    ensures forall e :: e in Events(TryBlock(action, hooks)[..n]) ==> !e.SetAttribute? && !IsHookOf(e, ErrorStep)
  {
    var plan := TryBlock(action, hooks);
    assert forall i :: 0 <= i < |plan| ==> !plan[i].event.SetAttribute? && !IsHookOf(plan[i].event, ErrorStep);
    var es := Events(plan[..n]);
    assert forall i :: 0 <= i < |es| ==> es[i] == plan[i].event;
  }

  /** The error hook runs exactly when an action was found, an error hook
      is set and some step of the `try` block threw. */
  lemma ErrorHookRunsOnlyOnFailure<A>(found: Option<A>, hooks: Hooks<A>, faults: Faults)
    ensures var run := Dispatch(found, hooks, faults);
      ((exists e :: e in run.trace && IsHookOf(e, ErrorStep)) <==>
        found.Some? && hooks.error.Some? && FirstFault(TryBlock(found.value, hooks), faults) < |TryBlock(found.value, hooks)|)
  {
    if found.Some? {
      var plan := TryBlock(found.value, hooks);
      var k := FirstFault(plan, faults);
      TryBlockEventsClean(found.value, hooks, if k < |plan| then k + 1 else k);
      if hooks.error.Some? && k < |plan| {
        var trace := Dispatch(found, hooks, faults).trace;
        assert IsHookOf(trace[|trace| - 1], ErrorStep);
      }
    }
  }

  /** ATTR_EXCEPTION is set only on the error path, and always to the first
      exception the `try` block threw. */
  lemma StoredExceptionIsFirstFailure<A>(found: Option<A>, hooks: Hooks<A>, faults: Faults)
    ensures var run := Dispatch(found, hooks, faults);
      forall e :: e in run.trace && e.SetAttribute? ==>
        && found.Some? && e.name == AttrException
        && var plan := TryBlock(found.value, hooks);
           var k := FirstFault(plan, faults);
           k < |plan| && e.failure == faults[plan[k].step]
  {
    if found.Some? {
      var plan := TryBlock(found.value, hooks);
      var k := FirstFault(plan, faults);
      TryBlockEventsClean(found.value, hooks, if k < |plan| then k + 1 else k);
    }
  }

  /** DispatcherServlet: the static routing table and hook slots of
      ActionDispatcherServlet, held by one object. */
  class DispatcherServlet<A> {
    const dispatcher: ActionDispatcher<A>
    var beforeAction: Option<A>
    var afterAction: Option<A>
    var errorAction: Option<A>
    var notFoundAction: Option<A>

    constructor ()
      ensures fresh(dispatcher) && dispatcher.actionMap == map[]
      ensures beforeAction == None && afterAction == None && errorAction == None && notFoundAction == None
    {
      dispatcher := new ActionDispatcher();
      beforeAction, afterAction, errorAction, notFoundAction := None, None, None, None;
    }

    function CurrentHooks(): Hooks<A>
      reads this
    {
      Hooks(beforeAction, afterAction, errorAction, notFoundAction)
    }

    /** `registerAction`: delegates to the shared routing table. */
    method RegisterAction(action: Option<A>, httpMethod: Option<HttpMethod>, url: Option<string>) returns (r: Outcome<RegistrationError>)
      modifies dispatcher
      ensures r.Pass? ==> Register(old(dispatcher.actionMap), action, httpMethod, url) == Success(dispatcher.actionMap)
      ensures r.Fail? ==> Register(old(dispatcher.actionMap), action, httpMethod, url) == Failure(r.error) && dispatcher.actionMap == old(dispatcher.actionMap)
    {
      r := dispatcher.RegisterAction(action, httpMethod, url);
    }

    function GetBeforeAction(): Option<A> reads this { beforeAction }
    function GetAfterAction(): Option<A> reads this { afterAction }
    function GetErrorAction(): Option<A> reads this { errorAction }
    function GetNotFoundAction(): Option<A> reads this { notFoundAction }

    /** `registerBeforeAction`: replaces the slot; the getter returns the
        last value set, and no other slot changes. */
    method RegisterBeforeAction(hook: Option<A>)
      modifies this
      ensures GetBeforeAction() == hook
      ensures afterAction == old(afterAction) && errorAction == old(errorAction) && notFoundAction == old(notFoundAction)
    {
      beforeAction := hook;
    }

    method RegisterAfterAction(hook: Option<A>)
      modifies this
      ensures GetAfterAction() == hook
      ensures beforeAction == old(beforeAction) && errorAction == old(errorAction) && notFoundAction == old(notFoundAction)
    {
      afterAction := hook;
    }

    method RegisterErrorAction(hook: Option<A>)
      modifies this
      ensures GetErrorAction() == hook
      ensures beforeAction == old(beforeAction) && afterAction == old(afterAction) && notFoundAction == old(notFoundAction)
    {
      errorAction := hook;
    }

    method RegisterNotFoundAction(hook: Option<A>)
      modifies this
      ensures GetNotFoundAction() == hook
      ensures beforeAction == old(beforeAction) && afterAction == old(afterAction) && errorAction == old(errorAction)
    {
      notFoundAction := hook;
    }

    /** The `try` block of `service`: the before hook if set, the action,
        the after hook if set, stopping at the first that throws; its
        exception is the one caught. */
    method TryBlockRun(action: A, faults: Faults) returns (trace: seq<Event<A>>, caught: Option<Throwable>)
      ensures Progress(trace, caught) == RunPlan(TryBlock(action, CurrentHooks()), faults)
    {
      trace, caught := [], None;
      ghost var plan := TryBlock(action, CurrentHooks());
      ghost var n := if beforeAction.Some? then 1 else 0;
      ghost var k := |plan|;
      assert plan[n] == Planned(ActionStep, RunAction(action));
      if beforeAction.Some? {
        assert plan[0] == Planned(BeforeStep, RunHook(BeforeStep, beforeAction.value));
        trace := trace + [RunHook(BeforeStep, beforeAction.value)];
        if BeforeStep in faults {
          caught := Some(faults[BeforeStep]);
          k := 0;
          assert plan[..1] == [plan[0]];
        }
      }
      assert caught.None? ==> trace == Events(plan[..n]) && FirstFault(plan[..n], faults) == n;
      if caught.None? {
        trace := trace + [RunAction(action)];
        if ActionStep in faults {
          caught := Some(faults[ActionStep]);
          k := n;
        }
      }
      if caught.None? && afterAction.Some? {
        assert plan[n + 1] == Planned(AfterStep, RunHook(AfterStep, afterAction.value));
        trace := trace + [RunHook(AfterStep, afterAction.value)];
        if AfterStep in faults {
          caught := Some(faults[AfterStep]);
          k := n + 1;
        }
      }
      assert k == FirstFault(plan, faults);
      assert caught.None? ==> k == |plan| && Events(plan) == trace;
      assert caught.Some? ==> k < |plan| && Events(plan[..k + 1]) == trace && caught.value == faults[plan[k].step];
    }

    /** `service`: resolve; if nothing is found run the not-found hook or
        send 404; otherwise run before, action and after inside a `try`, and
        on a failure either store it and run the error hook or rethrow it. */
    method Service(req: Request, faults: Faults) returns (run: Run<Event<A>>)
      ensures run == Dispatch(Resolve(dispatcher.actionMap, req.requestMethod, req.pathInfo), CurrentHooks(), faults)
    {
      var action := dispatcher.GetAction(req);
      if action.None? {
        var event;
        if notFoundAction.Some? {
          event := RunHook(NotFoundStep, notFoundAction.value);
        } else {
          event := SendError(ScNotFound);
        }
        if NotFoundStep in faults {
          return Run([event], Propagated(faults[NotFoundStep]));
        }
        return Run([event], Completed);
      }
      var trace, caught := TryBlockRun(action.value, faults);
      if caught.None? {
        return Run(trace, Completed);
      }
      if errorAction.None? {
        return Run(trace, Propagated(caught.value));
      }
      trace := trace + [SetAttribute(AttrException, caught.value), RunHook(ErrorStep, errorAction.value)];
      if ErrorStep in faults {
        return Run(trace, Propagated(faults[ErrorStep]));
      }
      return Run(trace, Completed);
    }
  }
}
