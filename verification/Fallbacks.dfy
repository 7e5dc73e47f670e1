/**
Fallback picks over whole runs (dispatcher/dispatcher.go:251-263): while every usable link
is excluded, whatever else happens in between, requests go round the usable links.
*/
module Fallbacks {
  import opened Links
  import opened Rotation
  import opened Scheduling
  import opened Engine
  import opened Fairness

  // The live-list positions picked by falling back, in order.
  ghost function FallbacksOf(s: State, es: seq<Event>): seq<nat>
    requires Wf(s)
  {
    if es == [] then [] else FallbacksOf(s, Front(es)) + StepFallback(Run(s, Front(es)), Last(es))
  }

  ghost function StepFallback(s: State, e: Event): seq<nat>
    requires Wf(s)
  {
    if e.Request? then
      match Choose(LiveLinks(s), s.cursor, e.hasV4, e.hasV6)
      case Fallback(i) => [i]
      case _ => []
    else []
  }

  // No swap and no tunnel pick, and every request finds the same links usable and all of
  // those excluded. What is excluded besides, and the health of everything, may change.
  ghost predicate AllExcluded(s: State, es: seq<Event>, usable: seq<bool>)
    requires Wf(s)
  {
    es == [] || (AllExcluded(s, Front(es), usable) && ExcludedStep(Run(s, Front(es)), Last(es), usable))
  }

  ghost predicate ExcludedStep(s: State, e: Event, usable: seq<bool>)
    requires Wf(s)
  {
    && Enabled(s, e) && !e.Swap? && !e.TunnelPick?
    && (e.Request? ==>
          && Usable(LiveLinks(s), e.hasV4, e.hasV6) == usable
          && (exists k :: 0 <= k < |usable| && usable[k])
          && forall k :: 0 <= k < |usable| && usable[k] ==> LiveLinks(s)[k].excluded)
  }

  lemma ExcludedFallsBack(links: seq<Link>, c: nat, hasV4: bool, hasV6: bool)
    requires CursorOk(c, |links|)
    requires exists k :: 0 <= k < |links| && Usable(links, hasV4, hasV6)[k]
    requires forall k :: 0 <= k < |links| && Usable(links, hasV4, hasV6)[k] ==> links[k].excluded
    ensures Choose(links, c, hasV4, hasV6).Fallback?
  {
    ChoiceIsNearest(links, c, hasV4, hasV6);
  }

  lemma FallbackStep(s: State, e: Event, usable: seq<bool>)
    requires Wf(s) && ExcludedStep(s, e, usable) && e.Request?
    ensures |usable| == |s.live| && Step(s, e).live == s.live
    ensures var q := QueueOf(s, usable);
            && q != [] && StepFallback(s, e) == [q[0].index]
            && QueueOf(Step(s, e), usable) == q[1..] + [q[0]]
  {
    hide Step, Queue, Choose, AfterTurn;
    var links := LiveLinks(s);
    LiveAfterListStep(s, e);
    ExcludedFallsBack(links, s.cursor, e.hasV4, e.hasV6);
    FallbackRotates(links, s.cursor, e.hasV4, e.hasV6);
  }

  lemma ExcludedStepTurns(s: State, e: Event, usable: seq<bool>)
    requires Wf(s) && ExcludedStep(s, e, usable) && |usable| == |s.live|
    ensures Step(s, e).live == s.live
    ensures var q, q' := QueueOf(s, usable), QueueOf(Step(s, e), usable);
            if e.Request? then q != [] && StepFallback(s, e) == [q[0].index] && q' == q[1..] + [q[0]]
            else StepFallback(s, e) == [] && q' == q
  {
    hide Step, QueueOf;
    if e.Request? {
      FallbackStep(s, e, usable);
    } else {
      OtherStepsKeepQueue(s, e, usable);
    }
  }

  // The queue after m of its heads went to the back.
  ghost function Rotated(q: seq<Slot>, m: nat): seq<Slot>
    requires m <= |q|
  {
    q[m..] + q[..m]
  }

  lemma RotateOneMore(q: seq<Slot>, m: nat)
    requires m < |q|
    ensures Rotated(q, 0) == q && Indices(q[..0]) == []
    ensures Rotated(q, m)[0] == q[m] && Rotated(q, m)[1..] + [Rotated(q, m)[0]] == Rotated(q, m + 1)
    ensures Indices(q[..m + 1]) == Indices(q[..m]) + [q[m].index]
  {
  }

  lemma {:induction false} FallbacksRotate(s: State, es: seq<Event>, usable: seq<bool>)
    requires Wf(s) && AllExcluded(s, es, usable) && |usable| == |s.live|
    requires Requests(es) <= |QueueOf(s, usable)|
    ensures Run(s, es).live == s.live
    ensures QueueOf(Run(s, es), usable) == Rotated(QueueOf(s, usable), Requests(es))
    ensures FallbacksOf(s, es) == Indices(QueueOf(s, usable)[..Requests(es)])
  {
    hide QueueOf, ExcludedStep, StepFallback, Step, Wf, Rotated, Indices, IsPick;
    var q := QueueOf(s, usable);
    NothingRotated(q);
    if es != [] {
      var t, e := Run(s, Front(es)), Last(es);
      RequestsGrow(es);
      NoTunnelPick(t, e, usable);
      FallbacksRotate(s, Front(es), usable);
      ExcludedStepTurns(t, e, usable);
      if e.Request? {
        RotateOneMore(q, Requests(Front(es)));
      }
    }
  }

  lemma NothingRotated(q: seq<Slot>)
    ensures Rotated(q, 0) == q && Indices(q[..0]) == []
  {
  }

  lemma RequestsGrow(es: seq<Event>)
    requires es != []
    ensures Requests(es) == Requests(Front(es)) + if IsPick(Last(es)) then 1 else 0
  {
  }

  lemma NoTunnelPick(s: State, e: Event, usable: seq<bool>)
    requires Wf(s) && ExcludedStep(s, e, usable)
    ensures IsPick(e) <==> e.Request?
  {
  }

  /** Over any run in which every usable link stays excluded, k requests for k usable links
      are served by k different links, each usable link exactly once; then the order in
      which they come is back where it was, so it goes on like that for every further k. */
  lemma EachOncePerRound(s: State, es: seq<Event>, usable: seq<bool>)
    requires Wf(s) && AllExcluded(s, es, usable) && |usable| == |s.live|
    requires Requests(es) == |QueueOf(s, usable)|
    ensures var picks := FallbacksOf(s, es);
            && |picks| == Requests(es)
            && (forall a, b :: 0 <= a < b < |picks| ==> picks[a] != picks[b])
            && (forall i :: 0 <= i < |usable| ==> (i in picks <==> usable[i]))
            && (forall i :: i in picks ==> i < |usable|)
    ensures Run(s, es).live == s.live && QueueOf(Run(s, es), usable) == QueueOf(s, usable)
  {
    hide *;
    FallbacksRotate(s, es, usable);
    WholeRound(QueueOf(s, usable));
    QueueOfNames(s, usable);
  }

  lemma WholeRound(q: seq<Slot>)
    ensures q[..|q|] == q && Rotated(q, |q|) == q
  {
  }

  lemma QueueOfNames(s: State, usable: seq<bool>)
    requires Wf(s) && |usable| == |s.live|
    ensures var r := Indices(QueueOf(s, usable));
            && (forall a, b :: 0 <= a < b < |r| ==> r[a] != r[b])
            && (forall i :: 0 <= i < |usable| ==> (i in r <==> usable[i]))
            && (forall i :: i in r ==> i < |usable|)
  {
    hide Queue, Indices;
    QueueNames(LiveLinks(s), usable, s.cursor);
  }
}
