/**
Whose fault a failed dial is (dispatcher/dispatcher.go:599-632). An error is a tree of
errors wrapping others: the dispatcher looks for a name or address error anywhere in it,
and leaves no mark on the link if it finds one.
*/
module DialErrors {
  import opened Links
  import opened Engine

  datatype DialError =
    | NameError(message: string)
    | AddressError(message: string)
    | LinkError(message: string)
    | Wrapping(message: string, inner: DialError)
    | Joining(message: string, inners: seq<DialError>)
  {
    function Message(): string {
      message
    }
  }

  predicate HasNameError(err: DialError) {
    match err
    case NameError(_) => true
    case Wrapping(_, inner) => HasNameError(inner)
    case Joining(_, inners) => exists k :: 0 <= k < |inners| && HasNameError(inners[k])
    case _ => false
  }

  predicate HasAddressError(err: DialError) {
    match err
    case AddressError(_) => true
    case Wrapping(_, inner) => HasAddressError(inner)
    case Joining(_, inners) => exists k :: 0 <= k < |inners| && HasAddressError(inners[k])
    case _ => false
  }

  predicate IsDestinationError(err: DialError) {
    HasNameError(err) || HasAddressError(err)
  }

  // Something that went wrong in the first place, wrapped in nothing else of its own.
  ghost predicate CausedBy(err: DialError, cause: DialError) {
    match err
    case Wrapping(_, inner) => CausedBy(inner, cause)
    case Joining(_, inners) => exists k :: 0 <= k < |inners| && CausedBy(inners[k], cause)
    case _ => err == cause
  }

  ghost predicate DestinationCause(err: DialError) {
    exists cause :: CausedBy(err, cause) && (cause.NameError? || cause.AddressError?)
  }

  /** However deeply it is wrapped, the original causes decide: the destination is at fault
      if and only if one of them is a name or address error. */
  lemma {:induction false} CauseDecides(err: DialError)
    ensures IsDestinationError(err) <==> DestinationCause(err)
    decreases err
  {
    match err
    case Wrapping(_, inner) =>
      CauseDecides(inner);
      if DestinationCause(inner) {
        var cause :| CausedBy(inner, cause) && (cause.NameError? || cause.AddressError?);
        assert CausedBy(err, cause);
      }
      if DestinationCause(err) {
        var cause :| CausedBy(err, cause) && (cause.NameError? || cause.AddressError?);
        assert CausedBy(inner, cause);
      }
    case Joining(_, inners) =>
      forall k | 0 <= k < |inners| ensures IsDestinationError(inners[k]) <==> DestinationCause(inners[k]) {
        CauseDecides(inners[k]);
      }
      if IsDestinationError(err) {
        var k :| 0 <= k < |inners| && IsDestinationError(inners[k]);
        var cause :| CausedBy(inners[k], cause) && (cause.NameError? || cause.AddressError?);
        assert CausedBy(err, cause);
      }
      if DestinationCause(err) {
        var cause :| CausedBy(err, cause) && (cause.NameError? || cause.AddressError?);
        var k :| 0 <= k < |inners| && CausedBy(inners[k], cause);
        assert DestinationCause(inners[k]);
      }
    case _ =>
      assert CausedBy(err, err);
  }

  ghost function DialFailureSteps(id: Id, err: DialError): seq<Event> {
    if IsDestinationError(err) then []
    else [LastError(id, err.Message()), Failure(id, err.Message())]
  }

  lemma DialFailureRun(s: State, id: Id, err: DialError)
    requires Wf(s)
    ensures var message := err.Message();
            Run(s, DialFailureSteps(id, err)) ==
            if IsDestinationError(err) then s else Step(Step(s, LastError(id, message)), Failure(id, message))
  {
    hide Step;
    var first, second := LastError(id, err.Message()), Failure(id, err.Message());
    RunOneMore(s, [], first);
    RunOneMore(s, [first], second);
  }

  // ----- runs with failed dials in them

  datatype Action = Dialled(id: Id, err: DialError) | Other(event: Event)

  ghost function StepsOf(a: Action): seq<Event> {
    match a
    case Dialled(id, err) => DialFailureSteps(id, err)
    case Other(e) => [e]
  }

  // The state after the actions, and the alerts the failures among them raised.
  ghost function Act(s: State, actions: seq<Action>): (r: (State, seq<HealthEvent>))
    requires Wf(s)
    ensures Wf(r.0)
  {
    if actions == [] then (s, [])
    else
      var m := |actions| - 1;
      var (t, alerts) := Act(s, actions[..m]);
      (Run(t, StepsOf(actions[m])), alerts + AlertsOf(t, actions[m]))
  }

  ghost function AlertsOf(s: State, a: Action): seq<HealthEvent> {
    if a.Dialled? && !IsDestinationError(a.err) && a.id < |s.heap|
    then FailureAlerts(s.heap[a.id], s.autoExclude, s.threshold, a.err.Message())
    else []
  }

  // The alert is that of the failure, whatever the last error says by then.
  lemma DialAlerts(s: State, id: Id, err: DialError)
    requires Wf(s) && id < |s.heap|
    ensures AlertsOf(s, Dialled(id, err)) ==
            if IsDestinationError(err) then []
            else FailureAlerts(s.heap[id].(lastError := err.Message()), s.autoExclude, s.threshold, err.Message())
    ensures !IsDestinationError(err) ==>
              AlertsOf(s, Dialled(id, err)) == FailureAlerts(s.heap[id], s.autoExclude, s.threshold, err.Message())
  {
  }

  ghost predicate DestinationFault(a: Action) {
    a.Dialled? && IsDestinationError(a.err)
  }

  ghost function Erased(actions: seq<Action>): seq<Action> {
    if actions == [] then []
    else
      var m := |actions| - 1;
      if DestinationFault(actions[m]) then Erased(actions[..m]) else Erased(actions[..m]) + [actions[m]]
  }

  /** Failures that are the destination's fault can be erased from any run: every link,
      the cursor and every alert come out the same, so no number of unresolvable names
      excludes a link. */
  lemma {:induction false} DestinationErrorsInvisible(s: State, actions: seq<Action>)
    requires Wf(s)
    ensures Act(s, actions) == Act(s, Erased(actions))
  {
    hide Run, Wf, StepsOf, AlertsOf, DestinationFault;
    if actions != [] {
      var m := |actions| - 1;
      DestinationErrorsInvisible(s, actions[..m]);
      var rest := Erased(actions[..m]);
      if DestinationFault(actions[m]) {
        FaultDoesNothing(Act(s, actions[..m]).0, actions[m]);
        assert Act(s, actions).1 == Act(s, actions[..m]).1;
      } else {
        assert (rest + [actions[m]])[..|rest|] == rest;
      }
    }
  }

  lemma FaultDoesNothing(s: State, a: Action)
    requires Wf(s) && DestinationFault(a)
    ensures Run(s, StepsOf(a)) == s && AlertsOf(s, a) == []
  {
    NothingRun(s);
  }
}
