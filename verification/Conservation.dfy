/**
What a run conserves when nothing about eligibility is assumed: any mix of families,
links excluded and restored at any time. And the limit of fairness: under alternating
families a link can starve.
*/
module Conservation {
  import opened Links
  import opened Bitset
  import opened Rotation
  import opened Scheduling
  import opened TunnelScheduling
  import opened Engine
  import opened Fairness

  ghost predicate NoSwap(es: seq<Event>) {
    forall e :: e in es ==> !e.Swap?
  }

  // Turns of the link at position i that were completed in the run.
  ghost function Turns(s: State, es: seq<Event>, i: nat): nat
    requires Wf(s)
  {
    if es == [] then 0 else Turns(s, Front(es), i) + TurnsCompleted(Run(s, Front(es)), Last(es), i)
  }

  ghost function TurnsCompleted(s: State, e: Event, i: nat): nat
    requires Wf(s)
  {
    if StepPicks(s, e) == [i] && i < |s.live| && LiveLinks(s)[i].current + 1 >= LiveLinks(s)[i].ratio
    then 1 else 0
  }

  // What the link at position i had used of its turn when a pick of tunnel mode passed it
  // over as already tried: its counter then starts again at zero.
  ghost function GivenUp(s: State, es: seq<Event>, i: nat): int
    requires Wf(s)
  {
    if es == [] then 0 else GivenUp(s, Front(es), i) + StepGivesUp(Run(s, Front(es)), Last(es), i)
  }

  ghost function StepGivesUp(s: State, e: Event, i: nat): int
    requires Wf(s)
  {
    var n := |s.live|;
    if e.TunnelPick? && SomeUntried(e.tried, n) && s.cursor < n && i < n
       && Distance(s.cursor, i, n) < Distance(s.cursor, TunnelChoice(LiveLinks(s), s.cursor, e.tried), n)
    then LiveLinks(s)[i].current else 0
  }

  lemma GivesUpNothing(s: State, e: Event, i: nat)
    requires Wf(s) && (e.TunnelPick? ==> e.tried == 0)
    ensures StepGivesUp(s, e, i) == 0
  {
    if e.TunnelPick? && s.cursor < |s.live| {
      EmptyHasNoBits(s.cursor);
      if SomeUntried(0, |s.live|) {
        TunnelChoiceIsNearest(LiveLinks(s), s.cursor, 0);
      }
    }
  }

  /** Only retries make a link give anything up. */
  lemma {:induction false} NothingGivenUp(s: State, es: seq<Event>, i: nat)
    requires Wf(s) && forall e :: e in es && e.TunnelPick? ==> e.tried == 0
    ensures GivenUp(s, es, i) == 0
  {
    hide StepGivesUp, Wf;
    if es != [] {
      assert Last(es) in es && forall e :: e in Front(es) ==> e in es;
      NothingGivenUp(s, Front(es), i);
      GivesUpNothing(Run(s, Front(es)), Last(es), i);
    }
  }

  lemma RequestAccounts(links: seq<Link>, c: nat, hasV4: bool, hasV6: bool, i: nat)
    requires CursorOk(c, |links|) && i < |links| && links[i].InTurn()
    ensures var choice := Choose(links, c, hasV4, hasV6);
            var l, l' := links[i], AfterChoice(links, c, choice).0[i];
            && l'.ratio == l.ratio
            && l'.current == if choice != InRotation(i) then l.current
                             else if l.current + 1 >= l.ratio then l.current + 1 - l.ratio
                             else l.current + 1
  {
    ChoiceIsNearest(links, c, hasV4, hasV6);
  }

  lemma TunnelPickAccounts(s: State, e: Event, i: nat)
    requires Wf(s) && e.TunnelPick? && SomeUntried(e.tried, |s.live|) && i < |s.live|
    requires LiveLinks(s)[i].InTurn()
    ensures Step(s, e).live == s.live
    ensures var l, l' := LiveLinks(s)[i], LiveLinks(Step(s, e))[i];
            && l'.ratio == l.ratio
            && l.current + (if StepPicks(s, e) == [i] then 1 else 0)
               == l.ratio * TurnsCompleted(s, e, i) + StepGivesUp(s, e, i) + l'.current
  {
    hide Step, TunnelChoice, AfterTunnelPick, SomeUntried;
    SomeLink(e.tried, |s.live|);
    LiveAfterListStep(s, e);
    TunnelPickCounts(LiveLinks(s), s.cursor, e.tried);
  }

  lemma StepAccounts(s: State, e: Event, i: nat)
    requires Wf(s) && Balanced(s) && Enabled(s, e) && !e.Swap? && i < |s.live|
    ensures Step(s, e).live == s.live && Balanced(Step(s, e))
    ensures var l, l' := LiveLinks(s)[i], LiveLinks(Step(s, e))[i];
            && l'.ratio == l.ratio
            && l.current + (if StepPicks(s, e) == [i] then 1 else 0)
               == l.ratio * TurnsCompleted(s, e, i) + StepGivesUp(s, e, i) + l'.current
  {
    hide Step, Choose, AfterChoice, TunnelChoice, SomeUntried;
    StepStaysBalanced(s, e);
    assert LiveLinks(s)[i].InTurn();
    if e.Request? {
      LiveAfterListStep(s, e);
      RequestAccounts(LiveLinks(s), s.cursor, e.hasV4, e.hasV6, i);
    } else if e.TunnelPick? {
      TunnelPickAccounts(s, e, i);
    } else {
      OtherStepsKeepTurns(s, e, i);
    }
  }

  lemma StepPicksOne(s: State, e: Event, i: nat)
    requires Wf(s)
    ensures Count(StepPicks(s, e), i) == if StepPicks(s, e) == [i] then 1 else 0
  {
    CountOneMore([], i, i);
    if |StepPicks(s, e)| == 1 {
      CountOneMore([], StepPicks(s, e)[0], i);
      assert [] + [StepPicks(s, e)[0]] == StepPicks(s, e);
    }
  }

  /** Pick conservation: whatever the families, the exclusions and the bitsets, a link's
      picks in rotation are its ratio times its completed turns, plus what it gave up when
      retries passed it over, plus the change of its counter; the counter stays short of
      the ratio. Fallback picks are not counted by either side. */
  lemma {:induction false} PicksAreConserved(s: State, es: seq<Event>, i: nat)
    requires Wf(s) && Balanced(s) && Legal(s, es) && NoSwap(es) && i < |s.live|
    ensures Run(s, es).live == s.live && Balanced(Run(s, es))
    ensures var l, l' := LiveLinks(s)[i], LiveLinks(Run(s, es))[i];
            && l'.ratio == l.ratio && 0 <= l'.current < l'.ratio
            && l.current + Count(Picks(s, es), i) == l.ratio * Turns(s, es, i) + GivenUp(s, es, i) + l'.current
  {
    hide Step, StepPicks, TurnsCompleted, StepGivesUp, Wf, Enabled, Count;
    CountOverConcat([], [], i);
    assert LiveLinks(s)[i].InTurn();
    if es != [] {
      var t, e := Run(s, Front(es)), Last(es);
      assert e in es && forall x :: x in Front(es) ==> x in es;
      PicksAreConserved(s, Front(es), i);
      StepAccounts(t, e, i);
      StepPicksOne(t, e, i);
      CountOverConcat(Picks(s, Front(es)), StepPicks(t, e), i);
      Distribute(LiveLinks(s)[i].ratio, Turns(s, Front(es), i), TurnsCompleted(t, e, i));
      assert LiveLinks(Run(s, es))[i].InTurn();
    }
  }

  lemma Distribute(a: int, b: int, c: int)
    ensures a * (b + c) == a * b + a * c
  {
  }

  // ----- starvation under mixed families

  function Plain(address: string, ratio: int, isIPv6: bool): Link {
    Link(address, "", ratio, 0, isIPv6, 0, 0, 0, "", false, "", 0, false)
  }

  // An IPv4 link of ratio 2, an IPv6 link and an IPv4 link of ratio 1.
  function MixedLinks(current: int): seq<Link> {
    [Plain("a", 2, false).(current := current), Plain("b", 1, true), Plain("c", 1, false)]
  }

  ghost function MixedState(): (s: State)
    ensures Wf(s)
  {
    State(MixedLinks(0), [0, 1, 2], 0, false, 0)
  }

  function Alternating(m: nat): seq<Event> {
    if m == 0 then [] else Alternating(m - 1) + [Request(true, false), Request(false, true)]
  }

  lemma RunTwo(s: State, es: seq<Event>, a: Event, b: Event)
    requires Wf(s)
    ensures Run(s, es + [a, b]) == Step(Step(Run(s, es), a), b)
    ensures Picks(s, es + [a, b]) == Picks(s, es) + StepPicks(Run(s, es), a) + StepPicks(Step(Run(s, es), a), b)
  {
    assert Front(es + [a, b]) == es + [a] && Front(es + [a]) == es;
  }

  lemma MixedStart()
    ensures LiveLinks(MixedState()) == MixedLinks(0)
  {
  }

  // At the start the cursor is on the first link; one pair of requests later, and ever
  // after, on the third.
  lemma PairOnLists(c: nat)
    requires c == 0 || c == 2
    ensures var links := MixedLinks(if c == 0 then 0 else 1);
            && Choose(links, c, true, false) == InRotation(c)
            && AfterTurn(links, c) == (MixedLinks(1), 0)
            && Choose(MixedLinks(1), 0, false, true) == InRotation(1)
            && AfterTurn(MixedLinks(1), 1) == (MixedLinks(1), 2)
  {
    var links, links' := MixedLinks(if c == 0 then 0 else 1), MixedLinks(1);
    assert Find(Eligible(links, true, false), c) == 0;
    assert Find(Eligible(links', false, true), 0) == 1 by {
      assert FirstFrom(Eligible(links', false, true), 0, 1) == 1;
    }
    assert links[c := Counted(links[c])] == links';
    assert links'[1 := Counted(links'[1])] == links';
  }

  lemma OnePair(s: State, c: nat)
    requires Wf(s) && |s.live| == 3 && s.cursor == c && (c == 0 || c == 2)
    requires LiveLinks(s) == MixedLinks(if c == 0 then 0 else 1)
    ensures var t := Step(s, Request(true, false));
            var t' := Step(t, Request(false, true));
            && StepPicks(s, Request(true, false)) == [c] && StepPicks(t, Request(false, true)) == [1]
            && |t'.live| == 3 && t'.cursor == 2 && LiveLinks(t') == MixedLinks(1)
  {
    hide Step, Wf, Choose, MixedLinks, AfterTurn;
    PairOnLists(c);
    var t := Step(s, Request(true, false));
    LiveAfterListStep(s, Request(true, false));
    LiveAfterListStep(t, Request(false, true));
  }

  /** Fairness needs the eligible set to stay the same. With alternating IPv4 and IPv6
      requests the first link, with the highest ratio, is picked once and never again,
      while the third is picked every time. */
  lemma {:induction false} MixedFamiliesStarve(m: nat)
    ensures Count(Picks(MixedState(), Alternating(m + 1)), 0) == 1
    ensures Count(Picks(MixedState(), Alternating(m + 1)), 2) == m
    ensures var t := Run(MixedState(), Alternating(m + 1));
            |t.live| == 3 && t.cursor == 2 && LiveLinks(t) == MixedLinks(1)
  {
    var s, es := MixedState(), Alternating(m);
    hide Step, Wf, Choose, MixedLinks, StepPicks;
    var c := if m == 0 then 0 else 2;
    if m > 0 {
      MixedFamiliesStarve(m - 1);
    } else {
      MixedStart();
    }
    OnePair(Run(s, es), c);
    RunTwo(s, es, Request(true, false), Request(false, true));
    assert Picks(s, Alternating(m + 1)) == Picks(s, es) + [c] + [1];
  }
}
