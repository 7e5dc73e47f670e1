/**
How picks are shared out over whole runs of the engine. A run may interleave requests of
any families, and picks of tunnel mode that have tried nothing yet, with failures,
successes, exclusions, restorations and traffic, as long as every pick in it finds the
same set of eligible links; for a pick of tunnel mode those are all of them.
*/
module Fairness {
  import opened Links
  import opened Rotation
  import opened Scheduling
  import opened TunnelScheduling
  import opened Engine

  // ----- what a run shows

  ghost predicate IsPick(e: Event) {
    e.Request? || e.TunnelPick?
  }

  // How many picks the run asks for.
  ghost function Requests(es: seq<Event>): nat {
    if es == [] then 0 else Requests(Front(es)) + (if IsPick(Last(es)) then 1 else 0)
  }

  // The live-list positions picked in rotation, in order.
  ghost function Picks(s: State, es: seq<Event>): seq<nat>
    requires Wf(s)
  {
    if es == [] then [] else Picks(s, Front(es)) + StepPicks(Run(s, Front(es)), Last(es))
  }

  ghost function StepPicks(s: State, e: Event): seq<nat>
    requires Wf(s)
  {
    if e.Request? then
      match Choose(LiveLinks(s), s.cursor, e.hasV4, e.hasV6)
      case InRotation(i) => [i]
      case _ => []
    else if e.TunnelPick? && s.cursor < |s.live| && SomeUntried(e.tried, |s.live|)
    then [TunnelChoice(LiveLinks(s), s.cursor, e.tried)]
    else []
  }

  // No swap, and every pick finds exactly the wanted links eligible.
  ghost predicate Steady(s: State, es: seq<Event>, wanted: seq<bool>)
    requires Wf(s)
  {
    es == [] || (Steady(s, Front(es), wanted) && SteadyStep(Run(s, Front(es)), Last(es), wanted))
  }

  ghost predicate SteadyStep(s: State, e: Event, wanted: seq<bool>)
    requires Wf(s)
  {
    && Enabled(s, e) && !e.Swap?
    && (e.Request? ==> Eligible(LiveLinks(s), e.hasV4, e.hasV6) == wanted)
    && (e.TunnelPick? ==> e.tried == 0 && |wanted| == |s.live| && forall k :: 0 <= k < |wanted| ==> wanted[k])
  }

  // ----- the run is a run of the queue

  ghost function QueueOf(s: State, wanted: seq<bool>): seq<Slot>
    requires Wf(s) && |wanted| == |s.live|
  {
    Queue(LiveLinks(s), wanted, s.cursor)
  }

  lemma QueueFrame(links: seq<Link>, links': seq<Link>, wanted: seq<bool>, c: nat)
    requires |links| == |links'| == |wanted| && CursorOk(c, |links|)
    requires forall k :: 0 <= k < |links| ==> links[k].ratio == links'[k].ratio && links[k].current == links'[k].current
    ensures Queue(links, wanted, c) == Queue(links', wanted, c)
  {
    SpanFrame(links, links', wanted, c, |links|);
    SpanFrame(links, links', wanted, 0, c);
  }

  // No other section touches a ratio or a turn counter of the live list.
  lemma OtherStepsKeepTurns(s: State, e: Event, k: nat)
    requires Wf(s) && Enabled(s, e) && !e.Request? && !e.TunnelPick? && !e.Swap?
    ensures Step(s, e).live == s.live && Step(s, e).cursor == s.cursor
    ensures k < |s.live| ==> SameTurn(LiveLinks(Step(s, e))[k], LiveLinks(s)[k])
  {
    if OnLink(e) {
      LiveAfterLinkStep(s, e);
    } else {
      hide Step, Wf;
      LiveAfterListStep(s, e);
      ListStepKeepsTurns(LiveLinks(s), s.cursor, e, k);
    }
  }

  ghost predicate SameTurn(l: Link, l': Link) {
    l.ratio == l'.ratio && l.current == l'.current
  }

  lemma ListStepKeepsTurns(links: seq<Link>, c: nat, e: Event, k: nat)
    requires CursorOk(c, |links|) && !e.Request? && !e.TunnelPick?
    ensures ListStep(links, c, e).1 == c
    ensures k < |links| ==> SameTurn(ListStep(links, c, e).0[k], links[k])
  {
  }

  // Only picks move the queue.
  lemma OtherStepsKeepQueue(s: State, e: Event, wanted: seq<bool>)
    requires Wf(s) && Enabled(s, e) && |wanted| == |s.live|
    requires !e.Request? && !e.TunnelPick? && !e.Swap?
    ensures Step(s, e).live == s.live
    ensures QueueOf(Step(s, e), wanted) == QueueOf(s, wanted)
  {
    hide Queue, Step;
    OtherStepsKeepTurns(s, e, 0);
    forall k | 0 <= k < |s.live|
      ensures SameTurn(LiveLinks(Step(s, e))[k], LiveLinks(s)[k])
    {
      OtherStepsKeepTurns(s, e, k);
    }
    QueueFrame(LiveLinks(s), LiveLinks(Step(s, e)), wanted, s.cursor);
  }

  lemma RequestTurnsQueue(s: State, e: Event, wanted: seq<bool>, i: nat)
    requires Wf(s) && SteadyStep(s, e, wanted) && e.Request? && i < |wanted| && wanted[i]
    ensures |wanted| == |s.live| == |Step(s, e).live|
    ensures QueueOf(s, wanted) != []
    ensures QueueOf(Step(s, e), wanted) == Turn(QueueOf(s, wanted))
    ensures StepPicks(s, e) == [QueueOf(s, wanted)[0].index]
  {
    LiveAfterListStep(s, e);
    ChoiceIsNearest(LiveLinks(s), s.cursor, e.hasV4, e.hasV6);
    PickIsTurn(LiveLinks(s), s.cursor, e.hasV4, e.hasV6);
  }

  lemma TunnelPickTurnsQueue(s: State, e: Event, wanted: seq<bool>)
    requires Wf(s) && Balanced(s) && SteadyStep(s, e, wanted) && e.TunnelPick?
    ensures |wanted| == |s.live| == |Step(s, e).live|
    ensures QueueOf(s, wanted) != []
    ensures QueueOf(Step(s, e), wanted) == Turn(QueueOf(s, wanted))
    ensures StepPicks(s, e) == [QueueOf(s, wanted)[0].index]
  {
    hide Step, Turn, AfterTunnelPick, TunnelChoice, Queue;
    SomeLink(0, |s.live|);
    LiveAfterListStep(s, e);
    TunnelPickIsTurn(LiveLinks(s), s.cursor, wanted);
  }

  lemma QueueNonEmpty(s: State, wanted: seq<bool>, i: nat)
    requires Wf(s) && |wanted| == |s.live| && i < |wanted| && wanted[i]
    ensures QueueOf(s, wanted) != []
  {
    QueueComplete(LiveLinks(s), wanted, s.cursor, i);
  }

  lemma SteadyStepTurns(s: State, e: Event, wanted: seq<bool>, i: nat)
    requires Wf(s) && Balanced(s) && SteadyStep(s, e, wanted) && |wanted| == |s.live| && i < |wanted| && wanted[i]
    ensures Step(s, e).live == s.live && QueueOf(s, wanted) != [] && Balanced(Step(s, e))
    ensures QueueOf(Step(s, e), wanted) == if IsPick(e) then Turn(QueueOf(s, wanted)) else QueueOf(s, wanted)
    ensures StepPicks(s, e) == if IsPick(e) then [QueueOf(s, wanted)[0].index] else []
  {
    hide Step, QueueOf, Turn;
    QueueNonEmpty(s, wanted, i);
    StepStaysBalanced(s, e);
    if e.Request? {
      RequestTurnsQueue(s, e, wanted, i);
      LiveAfterListStep(s, e);
    } else if e.TunnelPick? {
      TunnelPickTurnsQueue(s, e, wanted);
      LiveAfterListStep(s, e);
    } else {
      OtherStepsKeepQueue(s, e, wanted);
    }
  }

  /** Refinement over runs: the picks of a steady run are what the queue serves, and the
      queue it ends with is the queue after as many turns as there were picks. */
  lemma {:induction false} RunIsRotation(s: State, es: seq<Event>, wanted: seq<bool>, i: nat)
    requires Wf(s) && Balanced(s) && Steady(s, es, wanted) && |wanted| == |s.live| && i < |wanted| && wanted[i]
    ensures Run(s, es).live == s.live && QueueOf(s, wanted) != [] && Balanced(Run(s, es))
    ensures QueueOf(Run(s, es), wanted) == After(QueueOf(s, wanted), Requests(es))
    ensures Picks(s, es) == Served(QueueOf(s, wanted), Requests(es))
  {
    hide QueueOf, SteadyStep, StepPicks, Turn, Step, Wf, Balanced;
    QueueNonEmpty(s, wanted, i);
    if es != [] {
      RunIsRotation(s, Front(es), wanted, i);
      SteadyStepTurns(Run(s, Front(es)), Last(es), wanted, i);
      OneMore(QueueOf(s, wanted), Requests(Front(es)));
    }
  }

  // ----- shares, summed over the list

  ghost function RatioSum(links: seq<Link>, wanted: seq<bool>, lo: nat, hi: nat): int
    requires |wanted| == |links| && lo <= hi <= |links|
    decreases hi - lo
  {
    if lo == hi then 0 else (if wanted[lo] then links[lo].ratio else 0) + RatioSum(links, wanted, lo + 1, hi)
  }

  ghost function OwedSum(links: seq<Link>, wanted: seq<bool>, lo: nat, hi: nat): int
    requires |wanted| == |links| && lo <= hi <= |links|
    decreases hi - lo
  {
    if lo == hi then 0
    else (if wanted[lo] then links[lo].ratio - links[lo].current else 0) + OwedSum(links, wanted, lo + 1, hi)
  }

  // The sum of the ratios of the eligible links.
  ghost function TotalRatio(s: State, wanted: seq<bool>): int
    requires Wf(s) && |wanted| == |s.live|
  {
    RatioSum(LiveLinks(s), wanted, 0, |wanted|)
  }

  // The picks the eligible links are still owed in their current turns.
  ghost function TotalOwed(s: State, wanted: seq<bool>): int
    requires Wf(s) && |wanted| == |s.live|
  {
    OwedSum(LiveLinks(s), wanted, 0, |wanted|)
  }

  lemma {:induction false} SpanSums(links: seq<Link>, wanted: seq<bool>, lo: nat, hi: nat)
    requires |wanted| == |links| && lo <= hi <= |links|
    ensures Weight(Span(links, wanted, lo, hi)) == RatioSum(links, wanted, lo, hi)
    ensures Debt(Span(links, wanted, lo, hi)) == OwedSum(links, wanted, lo, hi)
    decreases hi - lo
  {
    if lo < hi {
      SpanSums(links, wanted, lo + 1, hi);
      if wanted[lo] {
        assert Span(links, wanted, lo, hi)[1..] == Span(links, wanted, lo + 1, hi);
      }
    }
  }

  lemma QueueSums(s: State, wanted: seq<bool>)
    requires Wf(s) && |wanted| == |s.live|
    ensures Weight(QueueOf(s, wanted)) == TotalRatio(s, wanted)
    ensures Debt(QueueOf(s, wanted)) == TotalOwed(s, wanted)
  {
    var links, n := LiveLinks(s), |wanted|;
    SumsOverConcat(Span(links, wanted, s.cursor, n), Span(links, wanted, 0, s.cursor));
    SumsOverConcat(Span(links, wanted, 0, s.cursor), Span(links, wanted, s.cursor, n));
    SpanSplits(links, wanted, 0, s.cursor, n);
    SpanSums(links, wanted, 0, n);
  }

  lemma QueueIsSound(s: State, wanted: seq<bool>)
    requires Wf(s) && Balanced(s) && |wanted| == |s.live|
    ensures InTurn(QueueOf(s, wanted)) && Distinct(QueueOf(s, wanted))
  {
    var q := QueueOf(s, wanted);
    QueueContents(LiveLinks(s), wanted, s.cursor);
    forall k | 0 <= k < |q| ensures 0 <= q[k].current < q[k].ratio {
      assert q[k] in q;
      assert LiveLinks(s)[q[k].index].InTurn();
    }
  }

  // Among the wanted links, only the one the cursor will land on may be part-way
  // through its turn.
  ghost predicate OnlyLandingPartial(s: State, wanted: seq<bool>)
    requires Wf(s) && |wanted| == |s.live|
  {
    var e := Find(wanted, s.cursor);
    forall k :: 0 <= k < |wanted| && wanted[k] && (e < |wanted| ==> k != At(s.cursor, e, |wanted|)) ==>
      LiveLinks(s)[k].current == 0
  }

  lemma QueueIsClean(s: State, wanted: seq<bool>)
    requires Wf(s) && |wanted| == |s.live| && OnlyLandingPartial(s, wanted)
    ensures Clean(QueueOf(s, wanted))
  {
    var q := QueueOf(s, wanted);
    QueueContents(LiveLinks(s), wanted, s.cursor);
    FindIsHead(LiveLinks(s), wanted, s.cursor);
    forall k | 1 <= k < |q| ensures q[k].current == 0 {
      assert q[k] in q && q[0].index != q[k].index;
    }
  }

  lemma SlotOf(s: State, wanted: seq<bool>, i: nat) returns (k: nat)
    requires Wf(s) && |wanted| == |s.live| && i < |wanted| && wanted[i]
    ensures var q := QueueOf(s, wanted);
            && k < |q| && q[k].index == i
            && q[k].ratio == LiveLinks(s)[i].ratio && q[k].current == LiveLinks(s)[i].current
    ensures Has(QueueOf(s, wanted), i, LiveLinks(s)[i].ratio)
  {
    QueueComplete(LiveLinks(s), wanted, s.cursor, i);
    QueueContents(LiveLinks(s), wanted, s.cursor);
    var q := QueueOf(s, wanted);
    k :| 0 <= k < |q| && q[k].index == i && q[k].ratio == LiveLinks(s)[i].ratio;
    assert q[k] in q;
  }

  // ----- the theorems

  /** Exact fairness. Start in a state where only the landing link may be part-way through
      its turn, and let S be the sum of the eligible ratios: then in any steady run with m
      picks, S times the picks of link i is within r * (S - r) of m * r. */
  lemma ExactFairness(s: State, es: seq<Event>, wanted: seq<bool>, i: nat)
    requires Wf(s) && Balanced(s) && Steady(s, es, wanted)
    requires |wanted| == |s.live| && i < |wanted| && wanted[i] && OnlyLandingPartial(s, wanted)
    ensures var S, r := TotalRatio(s, wanted), LiveLinks(s)[i].ratio;
            var gap := S * Count(Picks(s, es), i) - Requests(es) * r;
            -(r * (S - r)) <= gap <= r * (S - r)
  {
    RunIsRotation(s, es, wanted, i);
    QueueIsSound(s, wanted);
    QueueIsClean(s, wanted);
    QueueSums(s, wanted);
    var k := SlotOf(s, wanted, i);
    Fair(QueueOf(s, wanted), Requests(es), i, LiveLinks(s)[i].ratio);
  }

  lemma {:induction false} SteadyIsLegal(s: State, es: seq<Event>, wanted: seq<bool>)
    requires Wf(s) && Steady(s, es, wanted)
    ensures Legal(s, es) && forall e :: e in es ==> !e.Swap?
  {
    hide Wf, Enabled, Run;
    if es != [] {
      SteadyIsLegal(s, Front(es), wanted);
      assert forall e :: e in es ==> e in Front(es) || e == Last(es);
    }
  }

  // Read off the queue: if only its head is part-way through a turn, so is only the link
  // the cursor lands on.
  lemma CleanQueueLands(s: State, wanted: seq<bool>)
    requires Wf(s) && |wanted| == |s.live| && Clean(QueueOf(s, wanted))
    ensures OnlyLandingPartial(s, wanted)
  {
    hide Queue, Run, Step;
    FindIsHead(LiveLinks(s), wanted, s.cursor);
    var e := Find(wanted, s.cursor);
    forall k | 0 <= k < |wanted| && wanted[k] && (e < |wanted| ==> k != At(s.cursor, e, |wanted|))
      ensures LiveLinks(s)[k].current == 0
    {
      var j := SlotOf(s, wanted, k);
    }
  }

  /** A steady run keeps to the states that exact fairness starts from. */
  lemma SteadyStaysClean(s: State, es: seq<Event>, wanted: seq<bool>, i: nat)
    requires Wf(s) && Balanced(s) && Steady(s, es, wanted)
    requires |wanted| == |s.live| && i < |wanted| && wanted[i] && OnlyLandingPartial(s, wanted)
    ensures Run(s, es).live == s.live && Balanced(Run(s, es)) && OnlyLandingPartial(Run(s, es), wanted)
    ensures TotalRatio(Run(s, es), wanted) == TotalRatio(s, wanted)
    ensures LiveLinks(Run(s, es))[i].ratio == LiveLinks(s)[i].ratio
  {
    hide *;
    RunIsRotation(s, es, wanted, i);
    SteadyIsLegal(s, es, wanted);
    RunStaysBalanced(s, es);
    QueueIsSound(s, wanted);
    QueueIsClean(s, wanted);
    AfterKeeps(QueueOf(s, wanted), Requests(es));
    CleanQueueLands(Run(s, es), wanted);
    QueueSums(s, wanted);
    QueueSums(Run(s, es), wanted);
    SameRatioAfter(s, Run(s, es), wanted, i, Requests(es));
  }

  lemma SameRatioAfter(s: State, t: State, wanted: seq<bool>, i: nat, m: nat)
    requires Wf(s) && Wf(t) && |wanted| == |s.live| == |t.live| && i < |wanted| && wanted[i]
    requires QueueOf(s, wanted) != [] && QueueOf(t, wanted) == After(QueueOf(s, wanted), m)
    requires Distinct(QueueOf(s, wanted))
    ensures LiveLinks(t)[i].ratio == LiveLinks(s)[i].ratio
  {
    hide After, QueueOf, Run;
    var k := SlotOf(s, wanted, i);
    AfterKeepsLink(QueueOf(s, wanted), m, i, LiveLinks(s)[i].ratio);
    var k' := SlotOf(t, wanted, i);
    var q := QueueOf(t, wanted);
    var j :| 0 <= j < |q| && q[j].index == i && q[j].ratio == LiveLinks(s)[i].ratio;
  }

  /** Exact fairness in every window: it holds not only from the start but for the picks of
      any stretch of a steady run. */
  lemma FairInEveryWindow(s: State, before: seq<Event>, window: seq<Event>, wanted: seq<bool>, i: nat)
    requires Wf(s) && Balanced(s) && Steady(s, before, wanted) && Steady(Run(s, before), window, wanted)
    requires |wanted| == |s.live| && i < |wanted| && wanted[i] && OnlyLandingPartial(s, wanted)
    ensures var S, r := TotalRatio(s, wanted), LiveLinks(s)[i].ratio;
            var gap := S * Count(Picks(Run(s, before), window), i) - Requests(window) * r;
            -(r * (S - r)) <= gap <= r * (S - r)
  {
    hide *;
    SteadyStaysClean(s, before, wanted, i);
    ExactFairness(Run(s, before), window, wanted, i);
  }

  /** One cycle: when the run has exactly S requests, every eligible link is picked exactly
      as often as its ratio says, and the queue is back where it was: the counters of the
      eligible links and the order in which they come next. */
  lemma ExactCycle(s: State, es: seq<Event>, wanted: seq<bool>, i: nat)
    requires Wf(s) && Balanced(s) && Steady(s, es, wanted)
    requires |wanted| == |s.live| && i < |wanted| && wanted[i] && OnlyLandingPartial(s, wanted)
    requires Requests(es) == TotalRatio(s, wanted)
    ensures Count(Picks(s, es), i) == LiveLinks(s)[i].ratio
    ensures Run(s, es).live == s.live
    ensures QueueOf(Run(s, es), wanted) == QueueOf(s, wanted)
    ensures LiveLinks(Run(s, es))[i].current == LiveLinks(s)[i].current
  {
    RunIsRotation(s, es, wanted, i);
    QueueIsSound(s, wanted);
    QueueIsClean(s, wanted);
    QueueSums(s, wanted);
    var k := SlotOf(s, wanted, i);
    var k' := SlotOf(Run(s, es), wanted, i);
    Periodic(QueueOf(s, wanted), k);
    assert QueueOf(s, wanted)[k].index == QueueOf(s, wanted)[k'].index;
  }

  /** Settling. From any leftover counters, a steady run with exactly as many requests as
      the eligible links are owed picks each of them exactly as often as it was owed and
      leaves all their counters at zero, so that `ExactCycle` applies from then on. */
  lemma SettlesAfterOwed(s: State, es: seq<Event>, wanted: seq<bool>, i: nat)
    requires Wf(s) && Balanced(s) && Steady(s, es, wanted)
    requires |wanted| == |s.live| && i < |wanted| && wanted[i]
    requires Requests(es) == TotalOwed(s, wanted)
    ensures Count(Picks(s, es), i) == LiveLinks(s)[i].ratio - LiveLinks(s)[i].current
    ensures Run(s, es).live == s.live
    ensures LiveLinks(Run(s, es))[i].current == 0
    ensures OnlyLandingPartial(Run(s, es), wanted)
  {
    RunIsRotation(s, es, wanted, i);
    QueueIsSound(s, wanted);
    QueueSums(s, wanted);
    hide After, Served, Lap, Run, Queue;
    var q, t := QueueOf(s, wanted), Run(s, es);
    Settles(q);
    var k := SlotOf(s, wanted, i);
    LapCounts(q, k);
    forall j | 0 <= j < |wanted| && wanted[j] ensures LiveLinks(t)[j].current == 0 {
      var k' := SlotOf(t, wanted, j);
    }
  }

  /** Bounded wait. From any leftover counters, link i is picked at the latest once the
      requests outnumber what the other eligible links are owed. */
  lemma BoundedWait(s: State, es: seq<Event>, wanted: seq<bool>, i: nat)
    requires Wf(s) && Balanced(s) && Steady(s, es, wanted)
    requires |wanted| == |s.live| && i < |wanted| && wanted[i]
    requires Requests(es) > TotalOwed(s, wanted) - (LiveLinks(s)[i].ratio - LiveLinks(s)[i].current)
    ensures i in Picks(s, es)
  {
    hide *;
    RunIsRotation(s, es, wanted, i);
    QueueIsSound(s, wanted);
    QueueSums(s, wanted);
    var k := SlotOf(s, wanted, i);
    WaitIsExact(QueueOf(s, wanted), k);
    ServedOnceWaited(QueueOf(s, wanted), k, Requests(es));
  }
}
