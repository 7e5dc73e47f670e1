/**
Health over whole runs (dispatcher/health.go). A link's record is followed backwards
through the run, across list swaps, where it is carried from object to object by address;
what the fields say now is related to the events that happened to that record.
*/
module History {
  import opened Links
  import opened Scheduling
  import TunnelScheduling
  import opened Engine

  // The object that held, before event e, the record that `id` holds after it; None for
  // a link that e brought in.
  ghost function Before(s: State, e: Event, id: Id): (p: Option<Id>)
    requires Wf(s)
    ensures p.Some? ==> p.value < |s.heap|
  {
    if id < |s.heap| then Some(id)
    else if e.Swap? && id - |s.heap| < |e.next| then
      var o := LastAt(LiveLinks(s), e.next[id - |s.heap|].address);
      if o < |s.live| then Some(s.live[o]) else None
    else None
  }

  // The object at this live position, if there is one, is p.
  ghost predicate Holds(s: State, i: nat, p: Id) {
    i < |s.live| && s.live[i] == p
  }

  // The events that reset the failure streak of the object p.
  ghost predicate Resets(s: State, e: Event, p: Id)
    requires Wf(s) && p < |s.heap|
  {
    match e
    case Success(id) => id == p
    case IncludeAll(_) => p in s.live && s.heap[p].excluded
    case SetExcluded(address, _) => Holds(s, FirstAt(LiveLinks(s), address), p)
    case ProbeRestore(i, address) => Holds(s, i, p) && s.heap[p].address == address
    case _ => false
  }

  // The events that put the object p out of rotation.
  ghost predicate Excludes(s: State, e: Event, p: Id)
    requires Wf(s) && p < |s.heap|
  {
    match e
    case SetExcluded(address, excluded) => excluded && Holds(s, FirstAt(LiveLinks(s), address), p)
    case Failure(id, _) =>
      id == p && s.autoExclude && !s.heap[p].excluded && s.heap[p].failures + 1 >= EffectiveThreshold(s.threshold)
    case _ => false
  }

  // The events that put it back.
  ghost predicate Restores(s: State, e: Event, p: Id)
    requires Wf(s) && p < |s.heap|
  {
    match e
    case IncludeAll(_) => p in s.live
    case SetExcluded(address, excluded) => !excluded && Holds(s, FirstAt(LiveLinks(s), address), p)
    case ProbeRestore(i, address) => Holds(s, i, p) && s.heap[p].address == address
    case _ => false
  }

  // ----- one step, one object

  // The health fields, as seen from outside.
  datatype Health = Health(failures: int, excluded: bool, reason: string, reported: bool)

  ghost function HealthOf(l: Link): Health {
    Health(l.failures, l.excluded, l.excludedReason, l.reported)
  }

  // The reason an event gives for putting a link out of rotation.
  ghost function ReasonGiven(e: Event): string {
    match e
    case SetExcluded(_, _) => "excluded manually"
    case Failure(_, reason) => reason
    case _ => ""
  }

  // The reason kept after an event. Restoring all of them passes over a link that is in.
  ghost function ReasonAfter(s: State, e: Event, p: Id): string
    requires Wf(s) && p < |s.heap|
  {
    if Excludes(s, e, p) then ReasonGiven(e)
    else if Restores(s, e, p) && (s.heap[p].excluded || !e.IncludeAll?) then ""
    else s.heap[p].excludedReason
  }

  lemma RequestKeepsHealth(links: seq<Link>, c: nat, e: Event, i: nat)
    requires CursorOk(c, |links|) && i < |links| && e.Request?
    ensures HealthOf(ListStep(links, c, e).0[i]) == HealthOf(links[i])
  {
    hide Choose;
    ChoiceInRange(links, c, e.hasV4, e.hasV6);
  }

  lemma TunnelPickKeepsHealth(links: seq<Link>, c: nat, e: Event, i: nat)
    requires CursorOk(c, |links|) && i < |links| && e.TunnelPick?
    requires TunnelScheduling.SomeUntried(e.tried, |links|)
    ensures HealthOf(ListStep(links, c, e).0[i]) == HealthOf(links[i])
  {
    hide TunnelScheduling.AfterTunnelPick, TunnelScheduling.SomeUntried;
    TunnelScheduling.SomeLink(e.tried, |links|);
    TunnelScheduling.PickChangesTurnsOnly(links, c, e.tried, i);
  }

  // The health of object p after the event, by its health before.
  ghost predicate HealthAfter(s: State, e: Event, p: Id, h': Health)
    requires Wf(s) && p < |s.heap|
  {
    var h, failed := HealthOf(s.heap[p]), e.Failure? && e.id == p;
    var reached := h.failures + 1 >= EffectiveThreshold(s.threshold);
    && h'.failures == (if Resets(s, e, p) then 0 else if failed then h.failures + 1 else h.failures)
    && h'.excluded == (if Excludes(s, e, p) then true else if Restores(s, e, p) then false else h.excluded)
    && h'.reason == ReasonAfter(s, e, p)
    && h'.reported == (if failed then h.reported || reached
                       else if e.Success? && e.id == p then false else h.reported)
  }

  lemma LinkHealth(s: State, e: Event, p: Id)
    requires Wf(s) && OnLink(e) && e.id < |s.heap| && p < |s.heap|
    ensures var l' := LinkStep(s.heap[e.id], s.autoExclude, s.threshold, e);
            HealthAfter(s, e, p, HealthOf(if e.id == p then l' else s.heap[p]))
  {
    hide Wf;
  }

  // Picks, swaps and the flag have nothing to do with the health of an existing object.
  lemma UnrelatedHealth(s: State, e: Event, p: Id)
    requires Wf(s) && p < |s.heap| && (e.Request? || e.TunnelPick? || e.Swap? || e.SetAuto?)
    ensures HealthAfter(s, e, p, HealthOf(s.heap[p]))
  {
    hide Wf;
  }

  lemma ListEndures(s: State, e: Event, p: Id)
    requires Wf(s) && p < |s.heap| && (e.Swap? || e.SetAuto?)
    ensures p < |Step(s, e).heap| && Step(s, e).heap[p] == s.heap[p]
  {
  }

  lemma PickHealth(s: State, e: Event, p: Id)
    requires Wf(s) && Enabled(s, e) && p < |s.heap| && (e.Request? || e.TunnelPick?)
    ensures p < |Step(s, e).heap| && HealthOf(Step(s, e).heap[p]) == HealthOf(s.heap[p])
  {
    hide Step, ListStep, HealthOf, Wf;
    ObjectAfterListStep(s, e, p);
    if p in s.live {
      CursorIsOk(s);
      if e.Request? {
        RequestKeepsHealth(LiveLinks(s), s.cursor, e, PositionOf(s.live, p));
      } else {
        TriedIsOk(s, e);
        TunnelPickKeepsHealth(LiveLinks(s), s.cursor, e, PositionOf(s.live, p));
      }
    }
  }

  lemma ByHandHealth(s: State, e: Event, p: Id)
    requires Wf(s) && Enabled(s, e) && p < |s.heap| && (e.IncludeAll? || e.SetExcluded? || e.ProbeRestore?)
    ensures p < |Step(s, e).heap| && HealthAfter(s, e, p, HealthOf(Step(s, e).heap[p]))
  {
    hide Step, Wf;
    ObjectAfterListStep(s, e, p);
    if p in s.live {
      ManualStep(s, e, p);
    } else {
      assert forall i: nat :: !Holds(s, i, p);
    }
  }

  lemma HealthChanges(s: State, e: Event, p: Id)
    requires Wf(s) && Enabled(s, e) && p < |s.heap|
    ensures p < |Step(s, e).heap| && HealthAfter(s, e, p, HealthOf(Step(s, e).heap[p]))
  {
    hide Step, Wf, LinkStep, HealthAfter, HealthOf;
    if OnLink(e) {
      LinkStepWrites(s, e);
      LinkHealth(s, e, p);
    } else if e.IncludeAll? || e.SetExcluded? || e.ProbeRestore? {
      ByHandHealth(s, e, p);
    } else {
      UnrelatedHealth(s, e, p);
      if e.Request? || e.TunnelPick? {
        PickHealth(s, e, p);
      } else {
        ListEndures(s, e, p);
      }
    }
  }

  /** What any one event does to the health of an object that exists. */
  lemma HealthStep(s: State, e: Event, p: Id)
    requires Wf(s) && Enabled(s, e) && p < |s.heap|
    ensures p < |Step(s, e).heap|
    ensures var h, h' := HealthOf(s.heap[p]), HealthOf(Step(s, e).heap[p]);
            var failed := e.Failure? && e.id == p;
            var reached := h.failures + 1 >= EffectiveThreshold(s.threshold);
            && h'.failures == (if Resets(s, e, p) then 0 else if failed then h.failures + 1 else h.failures)
            && h'.excluded == (if Excludes(s, e, p) then true else if Restores(s, e, p) then false else h.excluded)
            && h'.reason == ReasonAfter(s, e, p)
            && h'.reported == (if failed then h.reported || reached
                               else if e.Success? && e.id == p then false else h.reported)
  {
    hide Step, Wf, Enabled, Resets, Excludes, Restores, ReasonAfter, EffectiveThreshold;
    HealthChanges(s, e, p);
  }

  lemma CursorIsOk(s: State)
    requires Wf(s)
    ensures CursorOk(s.cursor, |s.live|)
  {
  }

  lemma TriedIsOk(s: State, e: Event)
    requires Enabled(s, e) && e.TunnelPick?
    ensures TunnelScheduling.SomeUntried(e.tried, |s.live|)
  {
  }

  lemma ManualStep(s: State, e: Event, p: Id)
    requires Wf(s) && p < |s.heap| && p in s.live && (e.IncludeAll? || e.SetExcluded? || e.ProbeRestore?)
    ensures ManualHealth(s, e, p)
  {
    hide ManualHealth;
    match e
    case IncludeAll(_) => IncludeHealth(s, e, p);
    case SetExcluded(_, _) => ExcludeHealth(s, e, p);
    case ProbeRestore(_, _) => RestoreHealth(s, e, p);
  }

  // What an event by hand or by probe does to the health of the live object p.
  ghost predicate ManualHealth(s: State, e: Event, p: Id)
    requires Wf(s) && p < |s.heap| && (e.IncludeAll? || e.SetExcluded? || e.ProbeRestore?)
  {
    p in s.live ==>
      (var h, h' := HealthOf(s.heap[p]), HealthOf(ListStep(LiveLinks(s), s.cursor, e).0[PositionOf(s.live, p)]);
       && h'.failures == (if Resets(s, e, p) then 0 else h.failures)
       && h'.excluded == (if Excludes(s, e, p) then true else if Restores(s, e, p) then false else h.excluded)
       && h'.reason == ReasonAfter(s, e, p)
       && h'.reported == h.reported)
  }

  lemma OnePosition(s: State, p: Id)
    requires Wf(s) && p < |s.heap| && p in s.live
    ensures LiveLinks(s)[PositionOf(s.live, p)] == s.heap[p]
    ensures forall i: nat :: Holds(s, i, p) <==> i == PositionOf(s.live, p)
  {
  }

  lemma IncludeHealth(s: State, e: Event, p: Id)
    requires Wf(s) && p < |s.heap| && p in s.live && e.IncludeAll?
    ensures ManualHealth(s, e, p)
  {
    hide PositionOf, Wf;
    OnePosition(s, p);
  }

  lemma ExcludeHealth(s: State, e: Event, p: Id)
    requires Wf(s) && p < |s.heap| && p in s.live && e.SetExcluded?
    ensures ManualHealth(s, e, p)
  {
    hide PositionOf, Wf, Holds, FirstAt;
    OnePosition(s, p);
  }

  lemma RestoreHealth(s: State, e: Event, p: Id)
    requires Wf(s) && p < |s.heap| && p in s.live && e.ProbeRestore?
    ensures ManualHealth(s, e, p)
  {
    hide PositionOf, Wf, Holds;
    OnePosition(s, p);
  }

  lemma LiveStays(s: State, e: Event)
    requires Wf(s) && Enabled(s, e) && !e.Swap?
    ensures Step(s, e).live == s.live && |Step(s, e).heap| == |s.heap|
    ensures !e.SetAuto? ==> Step(s, e).autoExclude == s.autoExclude
  {
  }

  lemma SwapHeap(s: State, e: Event, id: Id)
    requires Wf(s) && Enabled(s, e) && e.Swap? && |s.heap| <= id < |Step(s, e).heap|
    ensures |Step(s, e).heap| == |s.heap| + |e.next|
    ensures Step(s, e).heap[id] == Carried(LiveLinks(s), e.next)[id - |s.heap|]
  {
  }

  // An object that appears was brought in by a swap, with the record of the live object it
  // replaces, except `reported`.
  lemma Birth(s: State, e: Event, id: Id)
    requires Wf(s) && Enabled(s, e) && |s.heap| <= id < |Step(s, e).heap|
    ensures e.Swap? && id - |s.heap| < |e.next|
    ensures var l, next, p := Step(s, e).heap[id], e.next[id - |s.heap|], Before(s, e, id);
            && l.reported == next.reported
            && HealthOf(l).failures == (if p.Some? then s.heap[p.value].failures else next.failures)
            && HealthOf(l).excluded == (if p.Some? then s.heap[p.value].excluded else next.excluded)
            && HealthOf(l).reason == (if p.Some? then s.heap[p.value].excludedReason else next.excludedReason)
            && l.lastError == (if p.Some? then s.heap[p.value].lastError else next.lastError)
  {
    hide Step;
    if e.Swap? {
      SwapHeap(s, e, id);
    } else {
      LiveStays(s, e);
    }
  }

  ghost predicate ParsedSwaps(es: seq<Event>) {
    forall e :: e in es && e.Swap? ==> forall k :: 0 <= k < |e.next| ==> e.next[k].Fresh()
  }

  ghost predicate Untouched(s: State) {
    forall id :: 0 <= id < |s.heap| ==> NoFailures(s.heap[id])
  }

  ghost predicate NoFailures(l: Link) {
    l.failures == 0 && !l.excluded && !l.reported
  }

  lemma Extend(s: State, es: seq<Event>)
    requires Wf(s) && Legal(s, es) && ParsedSwaps(es) && es != []
    ensures Legal(s, Front(es)) && ParsedSwaps(Front(es)) && Enabled(Run(s, Front(es)), Last(es))
    ensures Last(es).Swap? ==> forall k :: 0 <= k < |Last(es).next| ==> Last(es).next[k].Fresh()
  {
    assert Last(es) in es && forall e :: e in Front(es) ==> e in es;
  }

  // ----- streaks

  // How many events of the run it took until the record of `id` was last reset or brought
  // in; 0 if never.
  ghost function LastReset(s: State, es: seq<Event>, id: Id): (j: nat)
    requires Wf(s)
    ensures j <= |es|
  {
    if es == [] then 0
    else
      var t := Run(s, Front(es));
      match Before(t, Last(es), id)
      case None => |es|
      case Some(p) => if Resets(t, Last(es), p) then |es| else LastReset(s, Front(es), p)
  }

  // The link failures noted on the record of `id` from event j of the run on.
  ghost function Noted(s: State, es: seq<Event>, id: Id, j: nat): nat
    requires Wf(s)
  {
    if |es| <= j then 0
    else
      match Before(Run(s, Front(es)), Last(es), id)
      case None => 0
      case Some(p) =>
        Noted(s, Front(es), p, j) + (if Last(es).Failure? && Last(es).id == p then 1 else 0)
  }

  /** Streak history. From a state without failures, over every interleaving of failures,
      successes, manual changes, probe restores and list swaps, a link's failure counter
      is the number of failures noted on its record since the last event that reset it. */
  lemma {:induction false} StreakIsHistory(s: State, es: seq<Event>, id: Id)
    requires Wf(s) && Untouched(s) && Legal(s, es) && ParsedSwaps(es) && id < |Run(s, es).heap|
    ensures Run(s, es).heap[id].failures == Noted(s, es, id, LastReset(s, es, id))
  {
    hide Step, Wf, Resets, Enabled, Legal, ReasonAfter;
    if es == [] {
      assert NoFailures(s.heap[id]);
    } else {
      Extend(s, es);
      var t, e := Run(s, Front(es)), Last(es);
      if id < |t.heap| {
        StreakIsHistory(s, Front(es), id);
        HealthStep(t, e, id);
      } else {
        Birth(t, e, id);
        var p := Before(t, e, id);
        if p.Some? {
          StreakIsHistory(s, Front(es), p.value);
          SwapsResetNothing(t, e, p.value);
        }
      }
    }
  }

  lemma SwapsResetNothing(s: State, e: Event, p: Id)
    requires Wf(s) && p < |s.heap| && e.Swap?
    ensures !Resets(s, e, p) && !Excludes(s, e, p) && !Restores(s, e, p)
  {
  }

  // The alerts of one event about the object `id`.
  ghost function StepAlerts(s: State, e: Event, id: Id): seq<HealthEvent> {
    if e.Failure? && e.id == id < |s.heap|
    then FailureAlerts(s.heap[id], s.autoExclude, s.threshold, e.reason)
    else []
  }

  /** Automatic exclusion, exactly: a failure noted on an object leaves it excluded if and
      only if it was excluded already, or auto-exclusion is on and the failures noted since
      the last reset, this one included, reach the threshold, 3 unless it is set. It raises
      one alert if the threshold is reached and the object has not alerted since, whether or
      not auto-exclusion is on, naming the link, whether it is out now, and the reason. */
  lemma ExclusionNeedsStreak(s: State, es: seq<Event>, id: Id, reason: string)
    requires Wf(s) && Untouched(s) && Legal(s, es) && ParsedSwaps(es) && id < |Run(s, es).heap|
    ensures var t := Run(s, es);
            var t' := Step(t, Failure(id, reason));
            var streak := Noted(s, es, id, LastReset(s, es, id)) + 1;
            var reached := streak >= if t.threshold <= 0 then 3 else t.threshold;
            && id < |t'.heap| && t'.heap[id].failures == streak
            && (t'.heap[id].excluded <==> t.heap[id].excluded || (t.autoExclude && reached))
            && StepAlerts(t, Failure(id, reason), id) ==
               if reached && !t.heap[id].reported
               then [HealthEvent(t.heap[id].address, t'.heap[id].excluded, reason)] else []
  {
    hide Run, Noted, LastReset;
    StreakIsHistory(s, es, id);
  }

  // ----- exclusion with auto-exclusion off

  // The event that put the record of `id` out of rotation last, if it still is.
  ghost function Culprit(s: State, es: seq<Event>, id: Id): (k: Option<nat>)
    requires Wf(s)
    ensures k.Some? ==> k.value < |es|
  {
    if es == [] then None
    else
      var t := Run(s, Front(es));
      match Before(t, Last(es), id)
      case None => None
      case Some(p) =>
        if Excludes(t, Last(es), p) then Some(|es| - 1)
        else if Restores(t, Last(es), p) then None
        else Culprit(s, Front(es), p)
  }

  // Calls of SetAutoExclude(false) that have cleared the flag but not yet run IncludeAll.
  ghost function Halfway(es: seq<Event>): int {
    if es == [] then 0
    else Halfway(Front(es)) + (if Last(es) == SetAuto(false) then 1 else if Last(es) == IncludeAll(true) then -1 else 0)
  }

  // Every second half follows its first half.
  ghost predicate WellPaired(es: seq<Event>) {
    es == [] || (WellPaired(Front(es)) && Halfway(es) >= 0)
  }

  lemma {:induction false} ExcludedHasCulprit(s: State, es: seq<Event>, id: Id)
    requires Wf(s) && Untouched(s) && Legal(s, es) && ParsedSwaps(es) && id < |Run(s, es).heap|
    ensures Run(s, es).heap[id].excluded <==> Culprit(s, es, id).Some?
  {
    hide Step, Wf, Resets, Enabled, Legal, Excludes, Restores, ReasonAfter;
    if es == [] {
      assert NoFailures(s.heap[id]);
    } else {
      Extend(s, es);
      var t, e := Run(s, Front(es)), Last(es);
      if id < |t.heap| {
        ExcludedHasCulprit(s, Front(es), id);
        HealthStep(t, e, id);
      } else {
        Birth(t, e, id);
        var p := Before(t, e, id);
        if p.Some? {
          ExcludedHasCulprit(s, Front(es), p.value);
          SwapsResetNothing(t, e, p.value);
        }
      }
    }
  }

  ghost predicate NoMarks(s: State) {
    forall id :: 0 <= id < |s.heap| ==> s.heap[id].excludedReason == "" && s.heap[id].lastError == ""
  }

  lemma ReasonStep(s: State, e: Event, p: Id)
    requires Wf(s) && Enabled(s, e) && p < |s.heap|
    requires !s.heap[p].excluded ==> s.heap[p].excludedReason == ""
    ensures p < |Step(s, e).heap|
    ensures Step(s, e).heap[p].excludedReason ==
            if Excludes(s, e, p) then ReasonGiven(e)
            else if Restores(s, e, p) then "" else s.heap[p].excludedReason
  {
    hide Step, Wf, Excludes, Restores, ReasonGiven, Enabled;
    HealthStep(s, e, p);
  }

  /** The reason shown for an excluded link is that of the event that put it out: the
      manual one, or the error of the failure that reached the threshold. A link in
      rotation shows none. */
  lemma {:induction false} ReasonIsHistory(s: State, es: seq<Event>, id: Id)
    requires Wf(s) && Untouched(s) && NoMarks(s) && Legal(s, es) && ParsedSwaps(es) && id < |Run(s, es).heap|
    ensures var k := Culprit(s, es, id);
            Run(s, es).heap[id].excludedReason == if k.Some? then ReasonGiven(es[k.value]) else ""
  {
    hide Step, Wf, Enabled, Legal, Run, Before, Culprit, Excludes, Restores, ReasonGiven, Untouched, ParsedSwaps;
    if es == [] {
      NothingRun(s);
      NoCulprit(s, id);
      assert s.heap[id].excludedReason == "";
    } else {
      Extend(s, es);
      CulpritUnfolds(s, es, id);
      var t, e := Run(s, Front(es)), Last(es);
      BeforeIs(t, e, id);
      if id < |t.heap| {
        ReasonIsHistory(s, Front(es), id);
        ExcludedHasCulprit(s, Front(es), id);
        ReasonStep(t, e, id);
      } else {
        Birth(t, e, id);
        var p := Before(t, e, id);
        if p.Some? {
          ReasonIsHistory(s, Front(es), p.value);
          SwapsResetNothing(t, e, p.value);
        }
      }
    }
  }

  lemma BeforeIs(s: State, e: Event, id: Id)
    requires Wf(s)
    ensures id < |s.heap| ==> Before(s, e, id) == Some(id)
    ensures Before(s, e, id).Some? ==> Before(s, e, id).value < |s.heap|
  {
  }

  lemma NoCulprit(s: State, id: Id)
    requires Wf(s)
    ensures Culprit(s, [], id) == None
  {
  }

  lemma CulpritUnfolds(s: State, es: seq<Event>, id: Id)
    requires Wf(s) && es != []
    ensures Run(s, es) == Step(Run(s, Front(es)), Last(es))
    ensures var t, e := Run(s, Front(es)), Last(es);
            Culprit(s, es, id) ==
            match Before(t, e, id)
            case None => None
            case Some(p) =>
              if Excludes(t, e, p) then Some(|es| - 1) else if Restores(t, e, p) then None
              else Culprit(s, Front(es), p)
    ensures forall p :: Culprit(s, Front(es), p).Some? ==>
              Culprit(s, Front(es), p).value < |es| - 1 && Front(es)[Culprit(s, Front(es), p).value] ==
              es[Culprit(s, Front(es), p).value]
  {
    hide Step, Excludes, Restores, Before;
  }

  lemma IncludeAllClears(s: State, e: Event, i: nat)
    requires Wf(s) && e.IncludeAll? && i < |s.live|
    ensures Step(s, e).live == s.live
    ensures !LiveLinks(Step(s, e))[i].excluded
  {
    LiveAfterListStep(s, e);
  }

  // While auto-exclusion is off, a live link is excluded after a step only if the step is
  // a manual exclusion of it or its record was excluded and live before.
  lemma OffStep(s: State, e: Event, i: nat)
    requires Wf(s) && Enabled(s, e) && !s.autoExclude && !e.IncludeAll?
    requires e.Swap? ==> forall k :: 0 <= k < |e.next| ==> e.next[k].Fresh()
    requires i < |Step(s, e).live| && LiveLinks(Step(s, e))[i].excluded
    ensures var p := Before(s, e, Step(s, e).live[i]);
            && p.Some? && p.value in s.live
            && (Excludes(s, e, p.value) ==> e.SetExcluded? && e.excluded)
            && (!Excludes(s, e, p.value) ==> !Restores(s, e, p.value) && s.heap[p.value].excluded)
  {
    hide Step, Wf, ReasonAfter;
    var id := Step(s, e).live[i];
    if e.Swap? {
      LiveAfterSwap(s, e.next);
      LiveIdsInHeap(Step(s, e), i);
      Birth(s, e, id);
      if Before(s, e, id).Some? {
        SwapsResetNothing(s, e, Before(s, e, id).value);
      }
    } else {
      LiveStays(s, e);
      LiveIdsInHeap(s, i);
      HealthStep(s, e, id);
    }
  }

  lemma LiveIdsInHeap(s: State, i: nat)
    requires Wf(s) && i < |s.live|
    ensures s.live[i] < |s.heap| && LiveLinks(s)[i] == s.heap[s.live[i]]
  {
  }

  /** Auto-exclusion off means manual only. Start with nothing excluded and auto-exclusion
      off. Whenever it is off again and no SetAutoExclude(false) is between its two critical
      sections, every excluded live link was put out by SetExcluded, whatever interleaved. */
  lemma {:induction false} OffMeansManual(s: State, es: seq<Event>, i: nat)
    requires Wf(s) && Untouched(s) && !s.autoExclude && Legal(s, es) && ParsedSwaps(es) && WellPaired(es)
    requires !Run(s, es).autoExclude && Halfway(es) == 0
    requires i < |Run(s, es).live| && LiveLinks(Run(s, es))[i].excluded
    ensures var k := Culprit(s, es, Run(s, es).live[i]);
            k.Some? && es[k.value].SetExcluded? && es[k.value].excluded
  {
    hide Step, Wf, Resets, Enabled, Legal, Excludes, Restores;
    if es == [] {
      UntouchedIsIncluded(s, i);
    } else {
      Extend(s, es);
      var t, e := Run(s, Front(es)), Last(es);
      if e.IncludeAll? {
        LiveStays(t, e);
        IncludeAllClears(t, e, i);
      }
      FlagStep(t, e);
      OffStep(t, e, i);
      var p := Before(t, e, Run(s, es).live[i]).value;
      if !Excludes(t, e, p) {
        OffMeansManual(s, Front(es), PositionOf(t.live, p));
      }
    }
  }

  lemma UntouchedIsIncluded(s: State, i: nat)
    requires Wf(s) && Untouched(s) && i < |s.live|
    ensures !LiveLinks(s)[i].excluded
  {
    assert NoFailures(s.heap[s.live[i]]);
  }

  lemma FlagStep(s: State, e: Event)
    requires Wf(s) && Enabled(s, e)
    ensures Step(s, e).autoExclude == if e.SetAuto? then e.enabled else s.autoExclude
  {
  }

  // ----- alerts

  ghost function Alerts(s: State, es: seq<Event>, id: Id): seq<HealthEvent>
    requires Wf(s)
  {
    if es == [] then [] else Alerts(s, Front(es), id) + StepAlerts(Run(s, Front(es)), Last(es), id)
  }

  ghost function Successes(es: seq<Event>, id: Id): nat {
    if es == [] then 0
    else Successes(Front(es), id) + (if Last(es).Success? && Last(es).id == id then 1 else 0)
  }

  ghost predicate Reported(s: State, id: Id) {
    id < |s.heap| && s.heap[id].reported
  }

  lemma ReportStep(s: State, e: Event, id: Id)
    requires Wf(s) && Enabled(s, e)
    requires e.Swap? ==> forall k :: 0 <= k < |e.next| ==> e.next[k].Fresh()
    ensures var alerted := |StepAlerts(s, e, id)|;
            && 0 <= alerted <= 1
            && (alerted == 1 ==> !Reported(s, id) && Reported(Step(s, e), id))
            && (Reported(Step(s, e), id) && !Reported(s, id) ==> alerted == 1)
            && (Reported(s, id) && !Reported(Step(s, e), id) ==> e.Success? && e.id == id)
            && (e.Success? && e.id == id ==> !Reported(Step(s, e), id))
  {
    hide Step, Wf, ReasonAfter;
    if id < |s.heap| {
      HealthStep(s, e, id);
    } else if id < |Step(s, e).heap| {
      Birth(s, e, id);
    }
  }

  /** One alert per failing spell: over any run the threshold alerts about one link object
      number at most one more than the successes noted on it. */
  lemma {:induction false} OneAlertPerSpell(s: State, es: seq<Event>, id: Id)
    requires Wf(s) && Legal(s, es) && ParsedSwaps(es)
    ensures |Alerts(s, es, id)| + (if Reported(s, id) then 1 else 0) <=
            Successes(es, id) + (if Reported(Run(s, es), id) then 1 else 0)
    ensures |Alerts(s, es, id)| <= Successes(es, id) + 1
  {
    hide Step, Wf, Enabled, Legal, Reported, StepAlerts;
    if es != [] {
      Extend(s, es);
      OneAlertPerSpell(s, Front(es), id);
      ReportStep(Run(s, Front(es)), Last(es), id);
    }
  }

  // Whether the object has alerted since the last success noted on it.
  ghost predicate AlertedSince(s: State, es: seq<Event>, id: Id)
    requires Wf(s)
  {
    if es == [] then Reported(s, id)
    else if Last(es).Success? && Last(es).id == id then false
    else AlertedSince(s, Front(es), id) || StepAlerts(Run(s, Front(es)), Last(es), id) != []
  }

  lemma {:induction false} ReportedIsHistory(s: State, es: seq<Event>, id: Id)
    requires Wf(s) && Legal(s, es) && ParsedSwaps(es)
    ensures Reported(Run(s, es), id) <==> AlertedSince(s, es, id)
  {
    hide Step, Wf, Enabled, Legal, Reported, StepAlerts;
    if es != [] {
      Extend(s, es);
      ReportedIsHistory(s, Front(es), id);
      ReportStep(Run(s, Front(es)), Last(es), id);
    }
  }

  /** Silent exclusion, exactly: after any run a failure takes a link out without an alert if
      and only if auto-exclusion is on, the link was in, the streak reaches the threshold and
      the same object has alerted since its last success. No restore comes into it. */
  lemma ExclusionIsSilentIff(s: State, es: seq<Event>, id: Id, reason: string)
    requires Wf(s) && Untouched(s) && Legal(s, es) && ParsedSwaps(es) && id < |Run(s, es).heap|
    ensures var t := Run(s, es);
            var reached := Noted(s, es, id, LastReset(s, es, id)) + 1 >= EffectiveThreshold(t.threshold);
            (!t.heap[id].excluded && Step(t, Failure(id, reason)).heap[id].excluded
             && StepAlerts(t, Failure(id, reason), id) == []) <==>
            (t.autoExclude && !t.heap[id].excluded && reached && AlertedSince(s, es, id))
  {
    hide Run, Step, Noted, LastReset, StepAlerts, AlertedSince, Legal, Untouched;
    ExclusionNeedsStreak(s, es, id, reason);
    ReportedIsHistory(s, es, id);
  }

  // ----- what no event changes, and the last error

  // What a link is, as opposed to what has happened on it.
  datatype Identity = Identity(address: string, iface: string, ratio: int, isIPv6: bool)

  ghost function IdentityOf(l: Link): Identity {
    Identity(l.address, l.iface, l.ratio, l.isIPv6)
  }

  lemma LinkStepKeepsIdentity(l: Link, autoExclude: bool, threshold: int, e: Event)
    requires OnLink(e)
    ensures var l' := LinkStep(l, autoExclude, threshold, e);
            && IdentityOf(l') == IdentityOf(l)
            && l'.lastError == if e.LastError? then e.message else l.lastError
  {
  }

  lemma ListStepKeepsIdentity(links: seq<Link>, c: nat, e: Event, i: nat)
    requires CursorOk(c, |links|) && i < |links| && (e.TunnelPick? ==> TunnelScheduling.SomeUntried(e.tried, |links|))
    ensures var l' := ListStep(links, c, e).0[i];
            IdentityOf(l') == IdentityOf(links[i]) && l'.lastError == links[i].lastError
  {
    hide Choose, TunnelScheduling.AfterTunnelPick, TunnelScheduling.SomeUntried;
    if e.Request? {
      ChoiceInRange(links, c, e.hasV4, e.hasV6);
    } else if e.TunnelPick? {
      TunnelScheduling.SomeLink(e.tried, |links|);
      TunnelScheduling.PickChangesTurnsOnly(links, c, e.tried, i);
    }
  }

  /** No event changes an object's address, interface, ratio or family, and only an error
      noted on it changes its last error. */
  lemma IdentityStep(s: State, e: Event, p: Id)
    requires Wf(s) && Enabled(s, e) && p < |s.heap|
    ensures p < |Step(s, e).heap|
    ensures var l, l' := s.heap[p], Step(s, e).heap[p];
            && IdentityOf(l') == IdentityOf(l)
            && l'.lastError == if e.LastError? && e.id == p then e.message else l.lastError
  {
    hide ListStep, LinkStep, Wf, IdentityOf;
    if OnLink(e) {
      LinkStepKeepsIdentity(s.heap[e.id], s.autoExclude, s.threshold, e);
    } else if !e.Swap? && !e.SetAuto? {
      hide Step;
      ObjectAfterListStep(s, e, p);
      if p in s.live {
        CursorIsOk(s);
        if e.TunnelPick? {
          TriedIsOk(s, e);
        }
        ListStepKeepsIdentity(LiveLinks(s), s.cursor, e, PositionOf(s.live, p));
      }
    }
  }

  // The event that noted the last error of the record of `id`, if any did.
  ghost function LastErrorAt(s: State, es: seq<Event>, id: Id): (k: Option<nat>)
    requires Wf(s)
    ensures k.Some? ==> k.value < |es| && es[k.value].LastError?
  {
    if es == [] then None
    else
      match Before(Run(s, Front(es)), Last(es), id)
      case None => None
      case Some(p) =>
        if Last(es).LastError? && Last(es).id == p then Some(|es| - 1) else LastErrorAt(s, Front(es), p)
  }

  /** The last error shown is the latest one noted on the link's record, on whichever
      objects carried it across swaps. */
  lemma {:induction false} LastErrorIsHistory(s: State, es: seq<Event>, id: Id)
    requires Wf(s) && NoMarks(s) && Legal(s, es) && ParsedSwaps(es) && id < |Run(s, es).heap|
    ensures Run(s, es).heap[id].lastError ==
            match LastErrorAt(s, es, id)
            case None => ""
            case Some(k) => es[k].message
  {
    hide Step, Wf, Enabled, Legal, IdentityOf;
    if es != [] {
      Extend(s, es);
      var t, e := Run(s, Front(es)), Last(es);
      if id < |t.heap| {
        LastErrorIsHistory(s, Front(es), id);
        IdentityStep(t, e, id);
      } else {
        Birth(t, e, id);
        var p := Before(t, e, id);
        if p.Some? {
          LastErrorIsHistory(s, Front(es), p.value);
        }
      }
    }
  }
}
