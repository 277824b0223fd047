/** The pieces shared by both servlets' request lifecycles: the steps a
    request may run, which of them throw, and how a sequence of steps runs
    up to the first one that throws. */
module Lifecycle {
  import opened Wrappers

  /** HttpServletResponse.SC_NOT_FOUND. */
  const ScNotFound: int := 404

  /** An opaque exception object; only its identity matters. */
  datatype Throwable = Throwable(id: nat)

  /** The steps of a request: the before hook, the action, the after hook,
      the error hook and the not-found handling. */
  datatype Step = BeforeStep | ActionStep | AfterStep | ErrorStep | NotFoundStep

  /** Which steps throw on this request, and what: an input of the model
      standing for the behaviour of code it does not see. */
  type Faults = map<Step, Throwable>

  /** How a request ends: normally, or with an exception escaping to the
      servlet container. */
  datatype Exit = Completed | Propagated(failure: Throwable)

  /** The observable effects of one request, in order, and how it ended. */
  datatype Run<E> = Run(trace: seq<E>, exit: Exit)

  /** A step about to run and the event that records it. */
  datatype Planned<E> = Planned(step: Step, event: E)

  /** The events recorded so far, and the exception that stopped the run. */
  datatype Progress<E> = Progress(done: seq<E>, failure: Option<Throwable>)

  function Events<E>(plan: seq<Planned<E>>): (es: seq<E>)
    ensures |es| == |plan|
    ensures forall i :: 0 <= i < |plan| ==> es[i] == plan[i].event
  {
    if plan == [] then [] else [plan[0].event] + Events(plan[1..])
  }

  /** The position of the first planned step that throws, or `|plan|`
      when none does. */
  function FirstFault<E>(plan: seq<Planned<E>>, faults: Faults): (k: nat)
    ensures k <= |plan|
    ensures forall i :: 0 <= i < k ==> plan[i].step !in faults
    ensures k < |plan| ==> plan[k].step in faults
  {
    if plan == [] then 0
    else if plan[0].step in faults then 0
    else 1 + FirstFault(plan[1..], faults)
  }

  /** Straight-line code inside one `try` block: the steps run in order; a
      step that throws is recorded, its exception is caught, and every later
      step is skipped. */
  function RunPlan<E>(plan: seq<Planned<E>>, faults: Faults): (p: Progress<E>)
    ensures var k := FirstFault(plan, faults);
      if k == |plan| then p == Progress(Events(plan), None)
      else p == Progress(Events(plan[..k + 1]), Some(faults[plan[k].step]))
  {
    if plan == [] then Progress([], None)
    else if plan[0].step in faults then
      assert plan[..1] == [plan[0]];
      Progress([plan[0].event], Some(faults[plan[0].step]))
    else
      var rest := RunPlan(plan[1..], faults);
      var k := FirstFault(plan[1..], faults);
      assert k < |plan| - 1 ==> plan[..k + 2] == [plan[0]] + plan[1..][..k + 1];
      Progress([plan[0].event] + rest.done, rest.failure)
  }

}
