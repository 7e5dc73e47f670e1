/**
Traffic counters over whole runs: what a link shows is what was counted on its record,
carried across list swaps by address (dispatcher/dispatcher.go:286-308, 511-549).
*/
module Traffic {
  import opened Links
  import opened Scheduling
  import TunnelScheduling
  import opened Engine
  import opened History

  datatype Tallies = Tallies(sent: nat, received: nat, handled: nat)
  {
    function Plus(other: Tallies): Tallies {
      Tallies(sent + other.sent, received + other.received, handled + other.handled)
    }

    // As unsigned 64-bit counters.
    function Wrapped(): Tallies {
      Tallies(sent % 0x1_0000_0000_0000_0000, received % 0x1_0000_0000_0000_0000, handled % 0x1_0000_0000_0000_0000)
    }
  }

  ghost function CountersOf(l: Link): Tallies {
    Tallies(l.sent, l.received, l.handled)
  }

  // What one event counts on the object p.
  ghost function CountedBy(e: Event, p: Id): Tallies {
    if e.Tally? && e.id == p then Tallies(e.sent, e.received, e.handled) else Tallies(0, 0, 0)
  }

  lemma RequestKeepsCounters(links: seq<Link>, c: nat, e: Event, i: nat)
    requires CursorOk(c, |links|) && i < |links| && e.Request?
    ensures CountersOf(ListStep(links, c, e).0[i]) == CountersOf(links[i])
  {
    hide Choose;
    ChoiceInRange(links, c, e.hasV4, e.hasV6);
  }

  lemma TunnelPickKeepsCounters(links: seq<Link>, c: nat, e: Event, i: nat)
    requires CursorOk(c, |links|) && i < |links| && e.TunnelPick?
    requires TunnelScheduling.SomeUntried(e.tried, |links|)
    ensures CountersOf(ListStep(links, c, e).0[i]) == CountersOf(links[i])
  {
    hide TunnelScheduling.AfterTunnelPick, TunnelScheduling.SomeUntried;
    TunnelScheduling.SomeLink(e.tried, |links|);
    TunnelScheduling.PickChangesTurnsOnly(links, c, e.tried, i);
  }

  lemma ManualKeepsCounters(links: seq<Link>, c: nat, e: Event, i: nat)
    requires CursorOk(c, |links|) && i < |links| && (e.IncludeAll? || e.SetExcluded? || e.ProbeRestore?)
    ensures CountersOf(ListStep(links, c, e).0[i]) == CountersOf(links[i])
  {
  }

  lemma LinkStepCounts(l: Link, autoExclude: bool, threshold: int, e: Event)
    requires OnLink(e)
    ensures CountersOf(LinkStep(l, autoExclude, threshold, e)) == CountersOf(l).Plus(CountedBy(e, e.id)).Wrapped()
  {
  }

  lemma ListStepKeepsCounters(s: State, e: Event, p: Id)
    requires Wf(s) && Enabled(s, e) && p < |s.heap| && !OnLink(e) && !e.Swap? && !e.SetAuto?
    ensures p < |Step(s, e).heap| && CountersOf(Step(s, e).heap[p]) == CountersOf(s.heap[p])
  {
    hide Step, ListStep, CountersOf, Wf;
    ObjectAfterListStep(s, e, p);
    if p in s.live {
      var i := PositionOf(s.live, p);
      CursorIsOk(s);
      if e.Request? {
        RequestKeepsCounters(LiveLinks(s), s.cursor, e, i);
      } else if e.TunnelPick? {
        TriedIsOk(s, e);
        TunnelPickKeepsCounters(LiveLinks(s), s.cursor, e, i);
      } else {
        ManualKeepsCounters(LiveLinks(s), s.cursor, e, i);
      }
    }
  }

  // What any one event does to the counters of an object that exists.
  lemma CounterStep(s: State, e: Event, p: Id)
    requires Wf(s) && Enabled(s, e) && p < |s.heap|
    ensures p < |Step(s, e).heap|
    ensures CountersOf(Step(s, e).heap[p]) == CountersOf(s.heap[p]).Plus(CountedBy(e, p)).Wrapped()
  {
    hide Wf, ListStep, LinkStep, CountersOf;
    Unwrapped(s.heap[p]);
    if OnLink(e) {
      LinkStepCounts(s.heap[e.id], s.autoExclude, s.threshold, e);
    } else if !e.Swap? && !e.SetAuto? {
      hide Step;
      ListStepKeepsCounters(s, e, p);
    }
  }

  // An object that appears takes over the counters of the live object it replaces.
  lemma CounterBirth(s: State, e: Event, id: Id)
    requires Wf(s) && Enabled(s, e) && |s.heap| <= id < |Step(s, e).heap|
    ensures e.Swap? && id - |s.heap| < |e.next|
    ensures var p := Before(s, e, id);
            CountersOf(Step(s, e).heap[id]) ==
            if p.Some? then CountersOf(s.heap[p.value]) else CountersOf(e.next[id - |s.heap|])
  {
    hide Step;
    if e.Swap? {
      SwapHeap(s, e, id);
    } else {
      LiveStays(s, e);
    }
  }

  // Everything counted on the record that is now with object `id`: on the objects that
  // held it, while they held it.
  ghost function Total(s: State, es: seq<Event>, id: Id): Tallies
    requires Wf(s)
  {
    if es == [] then (if id < |s.heap| then CountersOf(s.heap[id]) else Tallies(0, 0, 0))
    else
      var t, e := Run(s, Front(es)), Last(es);
      match Before(t, e, id)
      case None => Tallies(0, 0, 0)
      case Some(p) => Total(s, Front(es), p).Plus(CountedBy(e, p))
  }

  lemma WrapOnce(a: Tallies, b: Tallies)
    ensures a.Wrapped().Plus(b).Wrapped() == a.Plus(b).Wrapped()
    ensures a.Plus(Tallies(0, 0, 0)) == a
  {
    ModuloAdds(a.sent, b.sent);
    ModuloAdds(a.received, b.received);
    ModuloAdds(a.handled, b.handled);
  }

  lemma ModuloAdds(a: nat, b: nat)
    ensures (a % COUNTER_MODULUS + b) % COUNTER_MODULUS == (a + b) % COUNTER_MODULUS
  {
    var q := a / COUNTER_MODULUS;
    assert a + b == (a % COUNTER_MODULUS + b) + COUNTER_MODULUS * q;
    ModuloIgnores(a % COUNTER_MODULUS + b, q);
  }

  lemma {:induction false} ModuloIgnores(a: nat, q: nat)
    ensures (a + COUNTER_MODULUS * q) % COUNTER_MODULUS == a % COUNTER_MODULUS
  {
    if q > 0 {
      ModuloIgnores(a, q - 1);
    }
  }

  /** Conservation of traffic: over every interleaving, each link object's counters are the
      64-bit remainders of everything counted on its record, on whichever objects carried
      it across swaps; nothing counted on an object after it was replaced leaks in. */
  lemma {:induction false} TrafficIsHistory(s: State, es: seq<Event>, id: Id)
    requires Wf(s) && Legal(s, es) && ParsedSwaps(es) && id < |Run(s, es).heap|
    ensures CountersOf(Run(s, es).heap[id]) == Total(s, es, id).Wrapped()
  {
    hide Step, Wf, Enabled, Legal, CountersOf, CountedBy;
    if es == [] {
      Unwrapped(s.heap[id]);
    } else {
      Extend(s, es);
      var t, e := Run(s, Front(es)), Last(es);
      if id < |t.heap| {
        TrafficIsHistory(s, Front(es), id);
        CounterStep(t, e, id);
        WrapOnce(Total(s, Front(es), id), CountedBy(e, id));
      } else {
        CounterBirth(t, e, id);
        var p := Before(t, e, id);
        if p.Some? {
          TrafficIsHistory(s, Front(es), p.value);
          SwapCountsNothing(e, p.value);
          WrapOnce(Total(s, Front(es), p.value), CountedBy(e, p.value));
        } else {
          Unwrapped(e.next[id - |t.heap|]);
          FreshHasNoCounters(e.next[id - |t.heap|]);
        }
      }
    }
  }

  lemma Unwrapped(l: Link)
    ensures CountersOf(l).Wrapped() == CountersOf(l)
    ensures CountersOf(l).Plus(Tallies(0, 0, 0)).Wrapped() == CountersOf(l)
  {
  }

  lemma FreshHasNoCounters(l: Link)
    requires l.Fresh()
    ensures CountersOf(l) == Tallies(0, 0, 0)
  {
  }

  lemma SwapCountsNothing(e: Event, p: Id)
    requires e.Swap?
    ensures CountedBy(e, p) == Tallies(0, 0, 0)
  {
  }
}
